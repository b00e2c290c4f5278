/** Error codes: those of packets, and those the client API returns. */
module Errors {
  import opened Words

  const NO_ERROR: byte := 0x80      // of a PL0 access
  const DATA_ERROR: byte := 0x8D
  const PL_NO_ERROR: byte := 0x08   // of a packet
  const PL_PROTOCOL: byte := 0x1E
  const PL_SERVER_LOCKED: byte := 0x32
  const DEV_RESET: byte := 0x44
  const DEV_LOCKED: byte := 0x46
  const DEV_ACCESS: byte := 0x48

  const ERR_NONE := 0
  const ERR_FN_NOT_SUPPORTED := 0x0100
  const ERR_FN_USAGE := 0x0110
  const ERR_FN_PARAM := 0x0120
  const ERR_SERVER_CON := 0x0200
  const ERR_SERVER_LOCKED := 0x0210
  const ERR_DEVICE_ACCESS := 0x0400
  const ERR_DEVICE_LOCKED := 0x0410
  const ERR_RW_READ := 0x0600
  const ERR_RW_WRITE := 0x0610
  const ERR_CHL_SETUP := 0x0800
  const ERR_CHL_RCV := 0x0820
  const ERR_GENERAL := 0x0F00
}
