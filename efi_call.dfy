/**
 * The call dispatcher (`performEfiCall`) and the trampoline it drives
 * (`performEfiCallAsm`). A firmware function is entered with the x64 calling
 * convention of section 2.3.4 of the UEFI Specification: four argument
 * registers rcx, rdx, r8, r9, the return value in rax, and further arguments
 * on the stack after four shadow slots.
 */
module EfiCall {
  import opened EfiTypes

  /** The values of the five `pal_efi_registers` slots at one instant. */
  datatype Registers = Registers(rcx: uint64, rdx: uint64, r8: uint64, r9: uint64, rax: uint64)

  /** `pal_efi_registers`: a frame the caller fills and the trampoline updates in place. */
  class RegisterFrame {
    var rcx: uint64
    var rdx: uint64
    var r8: uint64
    var r9: uint64
    var rax: uint64

    /** `pal_efi_registers regs {}`: every slot zero. */
    constructor ()
      ensures Values() == Registers(0, 0, 0, 0, 0)
    {
      rcx, rdx, r8, r9, rax := 0, 0, 0, 0, 0;
    }

    function Values(): (r: Registers)
      reads this
    {
      Registers(rcx, rdx, r8, r9, rax)
    }
  }

  /**
   * One entry into firmware through the trampoline: the function address, the
   * registers as the caller loaded them, the stack arguments as bytes, and the
   * value the firmware left in rax.
   */
  datatype FirmwareCall = FirmwareCall(func: uint64, args: Registers, stack: seq<uint8>, response: uint64)

  /**
   * The firmware as this core sees it: whether `gPEEFISystemTable` and
   * `gPEEFIRuntimeServices` are set, the three entries of the runtime-services
   * table this core reads, and the history of calls made into it.
   */
  class Firmware {
    var systemTablePresent: bool
    var runtimeTablePresent: bool
    var resetSystemFn: uint64
    var getVariableFn: uint64
    var setVariableFn: uint64
    var calls: seq<FirmwareCall>
  }

  /**
   * The outcome of the dispatcher's checks, in the order it makes them: a zero
   * function address first, then a missing frame or stack or a stack size that
   * is not a multiple of 16, then a missing firmware table.
   */
  function Precheck(func: uint64, frameNull: bool, stackNull: bool, stackSize: nat,
                    systemTablePresent: bool, runtimeTablePresent: bool): (code: KernReturn)
    ensures func == 0 ==> code == KernInvalidAddress
    ensures code == KernInvalidAddress ==> func == 0
    ensures code == KernInvalidArgument <==> func != 0 && (frameNull || stackNull || stackSize % 16 != 0)
    ensures code == KernNotSupported <==>
      func != 0 && !frameNull && !stackNull && stackSize % 16 == 0 && !(systemTablePresent && runtimeTablePresent)
    ensures code == KernSuccess <==>
      func != 0 && !frameNull && !stackNull && stackSize % 16 == 0 && systemTablePresent && runtimeTablePresent
  {
    if func == 0 then KernInvalidAddress
    else if frameNull || stackNull || stackSize % 16 != 0 then KernInvalidArgument
    else if !systemTablePresent || !runtimeTablePresent then KernNotSupported
    else KernSuccess
  }

  /** Argument validation never depends on whether the firmware tables are present. */
  lemma ArgumentChecksIgnoreTables(func: uint64, frameNull: bool, stackNull: bool, stackSize: nat,
                                   st1: bool, rt1: bool, st2: bool, rt2: bool)
    ensures (Precheck(func, frameNull, stackNull, stackSize, st1, rt1) == KernInvalidArgument)
        == (Precheck(func, frameNull, stackNull, stackSize, st2, rt2) == KernInvalidArgument)
    ensures (Precheck(func, frameNull, stackNull, stackSize, st1, rt1) == KernInvalidAddress)
        == (Precheck(func, frameNull, stackNull, stackSize, st2, rt2) == KernInvalidAddress)
  {
  }

  /**
   * `performEfiCallAsm`: switches to the firmware's calling convention and
   * enters `func` with the frame's argument slots and `stackSize` bytes of
   * stack arguments. What the firmware returns is not known here; it lands in
   * rax and nothing else in the frame changes.
   */
  method PerformEfiCallAsm(fw: Firmware, func: uint64, frame: RegisterFrame, stack: array<uint8>, stackSize: nat)
    requires stackSize <= stack.Length
    modifies fw`calls, frame`rax
    ensures fw.calls == old(fw.calls) + [FirmwareCall(func, old(frame.Values()), stack[..stackSize], frame.rax)]
    ensures frame.Values() == old(frame.Values()).(rax := frame.rax)
  {
    var response: uint64 := *;
    fw.calls := fw.calls + [FirmwareCall(func, frame.Values(), stack[..stackSize], response)];
    frame.rax := response;
  }

  /**
   * `performEfiCall`: checks its arguments and the firmware tables, in that
   * order, and only when every check passes enters the firmware once and
   * copies rax into the status. `efiStatus` is the value behind the caller's
   * status pointer before the call; `status` is that value afterwards.
   */
  method PerformEfiCall(fw: Firmware, func: uint64, frame: RegisterFrame?, stack: array?<uint8>, stackSize: nat,
                        efiStatus: uint64)
    returns (code: KernReturn, status: uint64)
    requires stack != null ==> stackSize <= stack.Length
    modifies fw`calls, frame
    ensures code == Precheck(func, frame == null, stack == null, stackSize,
                             fw.systemTablePresent, fw.runtimeTablePresent)
    ensures code != KernSuccess ==> fw.calls == old(fw.calls) && status == efiStatus
    ensures code != KernSuccess && frame != null ==> frame.Values() == old(frame.Values())
    ensures code == KernSuccess ==>
      frame != null && stack != null &&
      fw.calls == old(fw.calls) + [FirmwareCall(func, old(frame.Values()), stack[..stackSize], status)] &&
      frame.Values() == old(frame.Values()).(rax := status)
  {
    status := efiStatus;
    if func == 0 {
      return KernInvalidAddress, status;
    }
    if frame == null || stack == null || stackSize % 16 != 0 {
      return KernInvalidArgument, status;
    }
    if !fw.systemTablePresent || !fw.runtimeTablePresent {
      return KernNotSupported, status;
    }
    PerformEfiCallAsm(fw, func, frame, stack, stackSize);
    status := frame.rax;
    return KernSuccess, status;
  }
}
