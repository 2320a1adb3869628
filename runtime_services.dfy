/**
 * `EfiRuntimeServices`: the façade over ResetSystem, GetVariable and
 * SetVariable (sections 8.5.1 and 8.2 of the UEFI Specification), its access
 * lock, and the process-wide `instance` that `activate`, `get` and `put`
 * manage.
 */
module RuntimeServices {
  import opened EfiTypes
  import opened StackImage
  import opened EfiCall
  import opened Lifecycle

  /** An `IOLock`, reduced to whether it is held. */
  class IOLock {
    var held: bool

    constructor ()
      ensures !held
    {
      held := false;
    }
  }

  /** `IOLockAlloc`: a fresh, free lock, or null when allocation fails. */
  method IOLockAlloc(succeeds: bool) returns (lock: IOLock?)
    ensures (lock != null) == succeeds
    ensures lock != null ==> fresh(lock) && !lock.held
  {
    lock := null;
    if succeeds {
      lock := new IOLock();
    }
  }

  /** `IOLockLock`: the lock is held afterwards (waiting for another holder is not modelled). */
  method IOLockLock(lock: IOLock)
    modifies lock
    ensures lock.held
  {
    lock.held := true;
  }

  /** `IOLockUnlock`: the lock is free afterwards. */
  method IOLockUnlock(lock: IOLock)
    modifies lock
    ensures !lock.held
  {
    lock.held := false;
  }

  /** Size of every stack buffer the façade passes, 48 bytes: six 64-bit slots for GetVariable and SetVariable, 48 zero bytes for ResetSystem. */
  const FacadeStackSize: nat := 48

  /**
   * The stack of GetVariable and SetVariable (`uint64_t stack[6]`): four zero
   * shadow slots, the data pointer in slot 4 (the fifth argument), and a zero
   * pad slot.
   */
  function VariableStack(data: uint64): (ws: seq<uint64>)
    ensures |ws| == 6
  {
    [0, 0, 0, 0, data, 0]
  }

  /**
   * The bytes the dispatcher receives for that stack: 48 of them, a multiple
   * of 16; the shadow space is zero; slot 4 reads back as the data pointer and
   * slot 5 as zero.
   */
  lemma VariableStackLayout(data: uint64)
    ensures |Image(VariableStack(data))| == FacadeStackSize && FacadeStackSize % 16 == 0
    ensures forall i :: 0 <= i < 32 ==> Image(VariableStack(data))[i] == 0
    ensures Slot(Image(VariableStack(data)), 4) == data
    ensures Slot(Image(VariableStack(data)), 5) == 0
  {
    var ws := VariableStack(data);
    ImageSlot(ws, 4);
    ImageSlot(ws, 5);
    ImageOfZeros(ws[..4]);
    assert ws == ws[..4] + [data, 0];
    ImageAppend(ws[..4], [data, 0]);
  }

  /** The stack of ResetSystem (`uint8_t stack[48] {}`): all zero. */
  function ResetStack(): (r: seq<uint8>)
    ensures |r| == FacadeStackSize && |r| % 16 == 0
    ensures forall i :: 0 <= i < |r| ==> r[i] == 0
  {
    Zeros(FacadeStackSize)
  }

  /** The façade's stacks pass the dispatcher's argument check for every function and firmware state. */
  lemma FacadeStacksPassArgumentCheck(func: uint64, data: uint64, systemTable: bool, runtimeTable: bool)
    ensures Precheck(func, false, false, |Image(VariableStack(data))|, systemTable, runtimeTable) != KernInvalidArgument
    ensures Precheck(func, false, false, |ResetStack()|, systemTable, runtimeTable) != KernInvalidArgument
  {
  }

  /** A fresh array holding `image`. */
  method NewStack(image: seq<uint8>) returns (stack: array<uint8>)
    ensures fresh(stack) && stack[..] == image
  {
    stack := new uint8[|image|](i requires 0 <= i < |image| => image[i]);
  }

  class EfiRuntimeServices {
    var accessLock: IOLock?

    /** `new EfiRuntimeServices`: no lock yet. */
    constructor ()
      ensures accessLock == null
    {
      accessLock := null;
    }

    /**
     * `resetSystem`: rcx = reset type, rdx = EFI_SUCCESS, a 48-byte zero stack.
     * The firmware is entered once when the table's ResetSystem entry is
     * non-zero and the system table is present; otherwise not at all.
     */
    method ResetSystem(fw: Firmware, resetType: uint32)
      requires fw.runtimeTablePresent
      modifies fw`calls
      ensures fw.resetSystemFn != 0 && fw.systemTablePresent ==>
        |fw.calls| == |old(fw.calls)| + 1 && fw.calls[..|old(fw.calls)|] == old(fw.calls) &&
        fw.calls[|old(fw.calls)|].func == fw.resetSystemFn &&
        fw.calls[|old(fw.calls)|].args == Registers(resetType as uint64, EFI_SUCCESS, 0, 0, 0) &&
        fw.calls[|old(fw.calls)|].stack == ResetStack()
      ensures !(fw.resetSystemFn != 0 && fw.systemTablePresent) ==> fw.calls == old(fw.calls)
    {
      var entry := fw.resetSystemFn;
      var regs := new RegisterFrame();
      regs.rcx := resetType as uint64;
      regs.rdx := EFI_SUCCESS;
      var stack := NewStack(ResetStack());
      var status := EFI_SUCCESS;
      var code;
      code, status := PerformEfiCall(fw, entry, regs, stack, stack.Length, status);
    }

    /**
     * `getVariable`: rcx = name, rdx = vendor GUID, r8 = attributes pointer,
     * r9 = data-size pointer, the data pointer as the fifth (stack) argument.
     * Returns what the firmware left in rax, or EFI_SUCCESS when the
     * dispatcher refused to call it.
     */
    method GetVariable(fw: Firmware, name: uint64, guid: uint64, attr: uint64, size: uint64, data: uint64)
      returns (status: uint64)
      requires fw.runtimeTablePresent
      modifies fw`calls
      ensures fw.getVariableFn != 0 && fw.systemTablePresent ==>
        fw.calls == old(fw.calls) + [FirmwareCall(fw.getVariableFn, Registers(name, guid, attr, size, 0),
                                                  Image(VariableStack(data)), status)]
      ensures !(fw.getVariableFn != 0 && fw.systemTablePresent) ==>
        fw.calls == old(fw.calls) && status == EFI_SUCCESS
    {
      var entry := fw.getVariableFn;
      var regs := new RegisterFrame();
      regs.rcx := name;
      regs.rdx := guid;
      regs.r8 := attr;
      regs.r9 := size;
      var image := Image(VariableStack(data));
      var stack := NewStack(image);
      status := EFI_SUCCESS;
      var code;
      code, status := PerformEfiCall(fw, entry, regs, stack, stack.Length, status);
      assert stack[..stack.Length] == image;
    }

    /**
     * `setVariable`: as `getVariable`, but r8 and r9 carry the attributes
     * (zero-extended from 32 bits) and the data size by value.
     */
    method SetVariable(fw: Firmware, name: uint64, guid: uint64, attr: uint32, size: uint64, data: uint64)
      returns (status: uint64)
      requires fw.runtimeTablePresent
      modifies fw`calls
      ensures fw.setVariableFn != 0 && fw.systemTablePresent ==>
        fw.calls == old(fw.calls) + [FirmwareCall(fw.setVariableFn, Registers(name, guid, attr as uint64, size, 0),
                                                  Image(VariableStack(data)), status)]
      ensures !(fw.setVariableFn != 0 && fw.systemTablePresent) ==>
        fw.calls == old(fw.calls) && status == EFI_SUCCESS
    {
      var entry := fw.setVariableFn;
      var regs := new RegisterFrame();
      regs.rcx := name;
      regs.rdx := guid;
      regs.r8 := attr as uint64;
      regs.r9 := size;
      var image := Image(VariableStack(data));
      var stack := NewStack(image);
      status := EFI_SUCCESS;
      var code;
      code, status := PerformEfiCall(fw, entry, regs, stack, stack.Length, status);
      assert stack[..stack.Length] == image;
    }
  }

  /**
   * The static member `EfiRuntimeServices::instance` together with the static
   * operations that manage it.
   */
  class ServicesSingleton {
    var instance: EfiRuntimeServices?

    constructor ()
      ensures instance == null
    {
      instance := null;
    }

    /** A published instance always has its lock. */
    ghost predicate Valid()
      reads this, instance
    {
      instance != null ==> instance.accessLock != null
    }

    /** The objects `get` and `put` may change: the published instance's lock. */
    ghost function LockFrame(): (objs: set<object>)
      reads this, instance
    {
      if instance != null && instance.accessLock != null then {instance.accessLock} else {}
    }

    /** What a caller can observe, in the terms of `Lifecycle`. */
    ghost function State(): (p: Published)
      requires Valid()
      reads this, instance, LockFrame()
    {
      if instance == null then Unavailable else Available(instance.accessLock.held)
    }

    /**
     * `activate`: publishes a new instance when the `/efi` entry exists, its
     * `firmware-abi` is exactly "EFI64\0", and its lock can be allocated;
     * otherwise leaves `instance` as it was.
     */
    method Activate(probe: Probe)
      requires Valid()
      modifies this`instance
      ensures Valid()
      ensures State() == Step(old(State()), Lifecycle.Activate(probe))
      ensures Accepts(probe) ==> instance != null && fresh(instance) && fresh(instance.accessLock)
      ensures !Accepts(probe) ==> instance == old(instance)
    {
      var services: EfiRuntimeServices? := null;
      if probe.efiDevicePresent {
        var abi := probe.firmwareAbi;
        if abi.Some? && AbiSupported(abi.value) {
          services := new EfiRuntimeServices();
        }
        if services != null {
          var lock := IOLockAlloc(probe.lockAllocates);
          services.accessLock := lock;
          if services.accessLock != null {
            instance := services;
          }
        }
      }
    }

    /** `get`: returns the instance, first taking its lock when asked to and when there is one. */
    method Get(lock: bool) returns (r: EfiRuntimeServices?)
      requires Valid()
      modifies LockFrame()
      ensures Valid()
      ensures r == instance && instance == old(instance)
      ensures State() == Step(old(State()), Lifecycle.Get(lock))
    {
      if instance != null && lock {
        IOLockLock(instance.accessLock);
      }
      r := instance;
    }

    /** `put`: releases the instance's lock when there is an instance. */
    method Put()
      requires Valid()
      modifies LockFrame()
      ensures Valid()
      ensures instance == old(instance)
      ensures State() == Step(old(State()), Lifecycle.Put)
    {
      if instance != null {
        IOLockUnlock(instance.accessLock);
      }
    }
  }
}
