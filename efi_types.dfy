/**
 * Scalar types and status codes shared by the EFI runtime bridge: Mach kernel
 * return codes (the dispatcher's own outcome) and the EFI status value used as
 * the placeholder before a firmware call.
 */
module EfiTypes {

  /** Unsigned machine integers (`uint8_t` ... `uint64_t`); this core does no bit-level arithmetic on them. */
  newtype uint8 = x: int | 0 <= x < 0x100
  newtype uint16 = x: int | 0 <= x < 0x1_0000
  newtype uint32 = x: int | 0 <= x < 0x1_0000_0000
  newtype uint64 = x: int | 0 <= x < 0x1_0000_0000_0000_0000

  /** `EFI_SUCCESS` (Appendix D of the UEFI Specification): status 0. */
  const EFI_SUCCESS: uint64 := 0

  /** The kernel return codes the dispatcher can produce (mach/kern_return.h). */
  datatype KernReturn = KernSuccess | KernInvalidAddress | KernInvalidArgument | KernNotSupported

  datatype Option<T> = None | Some(value: T)
}
