# EFI runtime-services bridge of Lilu, in Dafny

This project models the part of the Lilu kernel extension that calls UEFI
runtime services from the macOS kernel (`Lilu/Sources/kern_efi.cpp`):

- **The call dispatcher** `performEfiCall` and the assembly trampoline
  `performEfiCallAsm` it drives (module `EfiCall`, `efi_call.dfy`). The
  dispatcher refuses a zero function address first. It then refuses a
  missing register frame, a missing stack, or a stack size that is not a
  multiple of 16. Last, it refuses a missing system or runtime-services
  table. Only when every check passes does it enter the firmware, exactly
  once, and copy rax into the caller's status. The register frame
  `pal_efi_registers` is a class the trampoline updates in place. The
  firmware is an object that records every call made into it: the function
  address, the argument registers, the stack bytes, and the value left in
  rax. That value is unknown to the model, so it is chosen arbitrarily.
- **The façade** `resetSystem`, `getVariable` and `setVariable` (module
  `RuntimeServices`, `runtime_services.dfy`). They place their arguments in
  rcx, rdx, r8 and r9 by the x64 calling convention of section 2.3.4 of the
  UEFI Specification. GetVariable and SetVariable pass a six-slot stack: four
  zero shadow slots, the data pointer, and a zero pad slot. The stack's
  little-endian byte image is modelled in module `StackImage`
  (`stack_image.dfy`). ResetSystem passes 48 zero bytes.
- **The process-wide instance** and its `activate`, `get` and `put`
  (`RuntimeServices.ServicesSingleton`). These are proved to follow a small
  state machine in module `Lifecycle` (`lifecycle.dfy`), and lemmas about
  any sequence of operations are proved on that machine.
- **The three vendor GUIDs** that partition the firmware-variable namespace
  (module `EfiGuid`, `efi_guid.dfy`). The module includes their
  registry-format text and a parser that reads that text back.

Shared scalar types, `kern_return_t` codes and `EFI_SUCCESS` live in module
`EfiTypes` (`efi_types.dfy`).

`activate` assigns `instance` unconditionally at line 102. So a second
accepted activation replaces the published instance and its lock, even while
that lock is held. `ServicesSingleton.Activate` follows the code, and
`Lifecycle.ActivateReplaces` states the effect.

## Model

| member | source | states |
|---|---|---|
| EfiCall.Precheck | Lilu/Sources/kern_efi.cpp:72-79 | The dispatcher's outcome in check order: zero function address ⇔ KERN_INVALID_ADDRESS. With a non-zero address, a null frame, a null stack or a size not divisible by 16 ⇔ KERN_INVALID_ARGUMENT. With valid arguments, a missing system or runtime table ⇔ KERN_NOT_SUPPORTED. KERN_SUCCESS ⇔ every check passes. |
| EfiCall.ArgumentChecksIgnoreTables | Lilu/Sources/kern_efi.cpp:72-79 | Whether the address or argument checks fail does not depend on which firmware tables are present, because those checks come first. |
| EfiCall.PerformEfiCallAsm | Lilu/Sources/kern_efi.cpp:66 | The trampoline enters the firmware once, with the frame's registers and the first `stackSize` stack bytes. Only rax of the frame changes, and it holds the firmware's response. |
| EfiCall.PerformEfiCall | Lilu/Sources/kern_efi.cpp:71-86 | The kernel code is `Precheck` of the arguments and the firmware tables. On failure, no firmware call happens, and the frame and `*efi_status` are untouched. On success, exactly one call is recorded with the caller's registers and stack, the frame's rax and the returned status both hold the response, and every other register is as before. |
| EfiCall.RegisterFrame.constructor | Lilu/Sources/kern_efi.cpp:49-55 | `pal_efi_registers regs {}` starts with all five slots zero. |
| StackImage.LittleEndianRoundTrip | Lilu/Sources/kern_efi.cpp:148 | Writing a number that fits into `count` little-endian bytes and reading them back gives the number. |
| StackImage.WordRoundTrip | Lilu/Sources/kern_efi.cpp:148 | A 64-bit stack slot's 8 bytes read back as the slot's value. |
| StackImage.Image | Lilu/Sources/kern_efi.cpp:148 | A `uint64_t` array's byte image is 8 bytes per element. |
| StackImage.ImageAppend | Lilu/Sources/kern_efi.cpp:148 | The image of two concatenated word arrays is the concatenation of their images. |
| StackImage.ImageSlotBytes | Lilu/Sources/kern_efi.cpp:148 | Bytes 8k to 8k+8 of an array's image are the image of element k. |
| StackImage.ImageSlot | Lilu/Sources/kern_efi.cpp:148 | Reading slot k from an array's image gives element k. |
| StackImage.Zeros | Lilu/Sources/kern_efi.cpp:132 | `n` zero bytes: exactly `n` bytes, each zero. |
| StackImage.ZeroBytes | Lilu/Sources/kern_efi.cpp:148 | Zero in any number of bytes is all zero bytes. |
| StackImage.ImageOfZeros | Lilu/Sources/kern_efi.cpp:148 | An array of zero words images to zero bytes only. |
| RuntimeServices.VariableStack | Lilu/Sources/kern_efi.cpp:148 | The GetVariable/SetVariable stack array has six 64-bit slots. |
| RuntimeServices.VariableStackLayout | Lilu/Sources/kern_efi.cpp:148 | The GetVariable/SetVariable stack is 48 bytes, a multiple of 16. Its first 32 bytes, the shadow space, are zero. Slot 4 reads back as the data pointer and slot 5 as zero. |
| RuntimeServices.ResetStack | Lilu/Sources/kern_efi.cpp:132 | The ResetSystem stack is 48 bytes, a multiple of 16, all zero. |
| RuntimeServices.FacadeStacksPassArgumentCheck | Lilu/Sources/kern_efi.cpp:132-134 | Neither façade stack can make the dispatcher answer KERN_INVALID_ARGUMENT, whatever the function or firmware state. |
| RuntimeServices.EfiRuntimeServices.ResetSystem | Lilu/Sources/kern_efi.cpp:127-139 | When the table's ResetSystem entry is non-zero and the system table is present, exactly one call is appended to the firmware's history. It goes to that entry with rcx = reset type, rdx = EFI_SUCCESS, r8 = r9 = rax = 0 and the 48-byte zero stack. Otherwise the firmware is not entered. |
| RuntimeServices.EfiRuntimeServices.GetVariable | Lilu/Sources/kern_efi.cpp:141-158 | When the GetVariable entry is non-zero and the system table is present, exactly one call is appended: name, GUID, attribute pointer and size pointer in rcx..r9, and the six-slot stack with the data pointer in slot 4. The returned status is the firmware's response. Otherwise nothing is called and the result is EFI_SUCCESS. |
| RuntimeServices.EfiRuntimeServices.SetVariable | Lilu/Sources/kern_efi.cpp:160-177 | As GetVariable, with the SetVariable entry, r8 = the 32-bit attributes zero-extended, and r9 = the data size. |
| RuntimeServices.EfiRuntimeServices.constructor | Lilu/Sources/kern_efi.cpp:94 | A new services object has no lock. |
| RuntimeServices.IOLockAlloc | Lilu/Sources/kern_efi.cpp:100 | Allocation yields a fresh, free lock, or null when it fails. |
| RuntimeServices.IOLockLock | Lilu/Sources/kern_efi.cpp:118 | After `IOLockLock` the lock is held. |
| RuntimeServices.IOLockUnlock | Lilu/Sources/kern_efi.cpp:124 | After `IOLockUnlock` the lock is free. |
| RuntimeServices.ServicesSingleton.constructor | Lilu/Sources/kern_efi.cpp:15 | The static `instance` starts null. |
| RuntimeServices.ServicesSingleton.Activate | Lilu/Sources/kern_efi.cpp:88-112 | A fresh instance with a fresh lock is published exactly when `/efi` exists, `firmware-abi` is data equal to "EFI64\0", and the lock allocates; otherwise `instance` is unchanged. A published instance always has a lock. The observable state moves as `Lifecycle.Step` says. |
| RuntimeServices.ServicesSingleton.Get | Lilu/Sources/kern_efi.cpp:114-120 | Returns `instance` without changing it. It takes the lock only when asked to and only when there is an instance, as `Lifecycle.Step` says. |
| RuntimeServices.ServicesSingleton.Put | Lilu/Sources/kern_efi.cpp:122-125 | Releases the instance's lock when there is an instance, and otherwise does nothing. |
| Lifecycle.AbiSupported | Lilu/Sources/kern_efi.cpp:93 | The `firmware-abi` property is accepted exactly when it is the six bytes "EFI64" followed by a zero terminator. |
| Lifecycle.Accepts | Lilu/Sources/kern_efi.cpp:91-102 | An activation publishes exactly when `/efi` exists, its `firmware-abi` is present and equal to "EFI64\0", and the lock allocates. |
| Lifecycle.Step | Lilu/Sources/kern_efi.cpp:88-125 | One activate/get/put never withdraws a published instance. Only an accepted activation publishes one. A held lock results only from `get(true)`, or was already held. |
| Lifecycle.ActivateReplaces | Lilu/Sources/kern_efi.cpp:99-102 | An accepted activation always ends with a published instance whose lock is free, whatever was published before, because line 102 replaces `instance` unconditionally. |
| Lifecycle.RunAppend | Lilu/Sources/kern_efi.cpp:88-125 | Running two operation sequences in turn equals running their concatenation. |
| Lifecycle.PublishedStaysPublished | Lilu/Sources/kern_efi.cpp:88-125 | Once an instance is published, no sequence of activate/get/put withdraws it. |
| Lifecycle.PublishedIffAccepted | Lilu/Sources/kern_efi.cpp:88-125 | Starting with none, an instance is published after a sequence of operations exactly when some activation in it was accepted. |
| Lifecycle.NeverPublished | Lilu/Sources/kern_efi.cpp:88-112 | Without an accepted activation, the state stays unavailable. |
| Lifecycle.UnlockedGetsChangeNothing | Lilu/Sources/kern_efi.cpp:114-120 | Any number of `get(false)` calls leaves the state as it was. |
| Lifecycle.GetPutReleases | Lilu/Sources/kern_efi.cpp:114-125 | Alternating `get(true)` and `put` on a published instance leaves its lock free. |
| EfiGuid.Hex | Lilu/Sources/kern_efi.cpp:18 | A number's text in a fixed width has that many characters. |
| EfiGuid.HexDigits | Lilu/Sources/kern_efi.cpp:18 | Every character of a number's text is a hexadecimal digit. |
| EfiGuid.HexValue | Lilu/Sources/kern_efi.cpp:18 | The value of n hexadecimal digits is below 16^n. |
| EfiGuid.HexRoundTrip | Lilu/Sources/kern_efi.cpp:18 | A number that fits the width reads back from its hexadecimal text. |
| EfiGuid.HexBytesAt | Lilu/Sources/kern_efi.cpp:18 | Byte j of a byte string is printed at characters 2j and 2j+1. |
| EfiGuid.ParseHexBytes | Lilu/Sources/kern_efi.cpp:18 | Printing bytes two digits each and reading them back gives the bytes. |
| EfiGuid.HexBytesAppend | Lilu/Sources/kern_efi.cpp:18 | Printing a concatenation of bytes prints each part in turn. |
| EfiGuid.Text | Lilu/Sources/kern_efi.cpp:18-40 | The registry-format text of a GUID is 36 characters long. |
| EfiGuid.TextLayout | Lilu/Sources/kern_efi.cpp:18-22 | A GUID's text is 36 characters, with dashes at 8, 13, 18 and 23, and each field in its place. |
| EfiGuid.HexBytesDigits | Lilu/Sources/kern_efi.cpp:18 | Printed bytes are hexadecimal digits only. |
| EfiGuid.TextIsRegistryFormat | Lilu/Sources/kern_efi.cpp:18-22 | Every GUID's text is in registry format. |
| EfiGuid.Parse | Lilu/Sources/kern_efi.cpp:18-22 | A parsed GUID is well formed and comes from registry-format text; any other text yields None. |
| EfiGuid.ParseText | Lilu/Sources/kern_efi.cpp:18-22 | Parsing a GUID's text gives the GUID back. |
| EfiGuid.TextInjective | Lilu/Sources/kern_efi.cpp:18-40 | Two GUIDs with the same text are the same GUID. |
| EfiGuid.VendorText | Lilu/Sources/kern_efi.cpp:18-22 | The vendor GUID's fields print as 4D1FDA02-38C7-4A6A-9CC6-4BCCA8B30102, the text its comment gives. |
| EfiGuid.ReadOnlyText | Lilu/Sources/kern_efi.cpp:25-31 | The read-only GUID's fields print as E09B9297-7928-4440-9AAB-D1F8536FBF0A, the text its comment gives. |
| EfiGuid.WriteOnlyText | Lilu/Sources/kern_efi.cpp:34-40 | The write-only GUID's fields print as F0B9AF8F-2222-4840-8A37-ECF7CC8C12E1, the text its comment gives. |
| EfiGuid.NamespacesDistinct | Lilu/Sources/kern_efi.cpp:42-44 | The vendor, read-only and write-only GUIDs are pairwise distinct, so the three namespaces do not overlap. |

## Left out

- Platform services are inputs. Looking up `/efi` in the device tree, reading and casting `firmware-abi`, and whether `IOLockAlloc` succeeds become the fields of `Lifecycle.Probe`. Releasing the registry entry (line 97) and deleting a rejected services object (line 105) free memory only, and are not modelled.
- Logging (`SYSLOG`, `DBGLOG`) has no effect on state and is left out.
- RuntimeServices.IOLockLock: does not model waiting. A `get(true)` on a lock that is already held would block in the kernel until another thread releases it. The model just marks the lock held, and models no concurrency at all.
- RuntimeServices.IOLockUnlock: in the kernel, unlocking a lock the caller does not hold is undefined behaviour. That is what `put()` does without an earlier `get(true)`, or when called a second time. `IOLockUnlock`, `ServicesSingleton.Put` and `Lifecycle.Step` instead treat it as leaving the lock free, and `GetPutReleases` relies on that.
- EfiCall.PerformEfiCallAsm: the firmware's behaviour is unknown. Its response in rax is an arbitrary value. What it writes through the pointer arguments (the attribute, size and data buffers, the variable store itself) is not modelled, and neither is a reset that does not return. The trampoline's switch of calling convention and stack is represented only by the recorded call.
- Pointers are plain 64-bit values. `reinterpret_cast` of the name, GUID, attribute, size and data pointers to `uint64_t` is the identity on those values.
- RuntimeServices.EfiRuntimeServices.ResetSystem: requires the runtime-services table to be present, because the source dereferences `gPEEFIRuntimeServices` before any check (line 128), and a null table there is undefined behaviour, not an error path. The same holds for GetVariable (line 142) and SetVariable (line 161).
- Of `EFI_RUNTIME_SERVICES_64`, only the three entries this core reads are modelled: `Firmware.resetSystemFn`, `getVariableFn` and `setVariableFn`.
- RuntimeServices.EfiRuntimeServices.ResetSystem: the reset type is a `uint32`, zero-extended into rcx. `EFI_RESET_TYPE` is an enumeration whose defined values are all non-negative.
- EfiCall.PerformEfiCall: `*efi_status` is an in/out value, not a pointer. The model therefore cannot express the unchecked write at line 83 through a null `efi_status`, the one pointer the dispatcher does not check. Every caller passes the address of a local, so nothing in this core depends on it.
