/** What bulk and isochronous transfers of the Linux backend have in common. */
module Usbfs {

  /** How a transfer treats the URBs it reaps. */
  datatype ReapAction = Normal | SubmitFailed | Cancelled | CompletedEarly

  datatype TransferStatus =
    | TransferCompleted | TransferError | TransferTimedOut | TransferCancelled
    | TransferStall | TransferNoDevice | TransferOverflow

  const LIBUSB_SUCCESS := 0
  const LIBUSB_ERROR_IO := -1
  const LIBUSB_ERROR_INVALID_PARAM := -2
  const LIBUSB_ERROR_NO_DEVICE := -4
  const LIBUSB_ERROR_NOT_FOUND := -5
  const LIBUSB_ERROR_BUSY := -6
}
