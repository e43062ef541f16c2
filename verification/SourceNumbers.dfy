/** The limits and codes of the source as numbers; the models and their theorems use the names. */
module SourceNumbers {
  import BulkUrbs
  import DeviceList
  import FlyingList
  import Framing
  import IsoPacking
  import Keystrokes
  import SessionProtocol
  import Usbfs

  lemma LimitsInNumbers()
    ensures BulkUrbs.MAX_BULK_BUFFER_LENGTH == 16384 && IsoPacking.MAX_ISO_BUFFER_LENGTH == 32768
    ensures DeviceList.DISCOVERED_DEVICES_SIZE_STEP == 8
    ensures Framing.MAX_PAYLOAD == Framing.MAX_TRANSFER == 4096
    ensures Keystrokes.TEXT_SIZE == 100 && Keystrokes.TEXT_BUFFER_SIZE == 240 && Keystrokes.EVENT_BUFFER_SIZE == 40
    ensures SessionProtocol.NONE == 0xffff_ffff
  {
  }

  lemma CodesInNumbers()
    ensures Usbfs.LIBUSB_SUCCESS == 0 && Usbfs.LIBUSB_ERROR_IO == -1 && Usbfs.LIBUSB_ERROR_INVALID_PARAM == -2
    ensures Usbfs.LIBUSB_ERROR_NO_DEVICE == -4 && Usbfs.LIBUSB_ERROR_NOT_FOUND == -5 && Usbfs.LIBUSB_ERROR_BUSY == -6
    ensures FlyingList.LIBUSB_ERROR_OTHER == -99
  {
  }
}
