/** Configuration constants of the chat relay (src/constants.ts). */
module Constants {
  /** Capacity of every room's backlog ring buffer. */
  const MESSAGE_BUFFER_LEN: nat := 50
  /** Connection budget per half-minute window, and the clamp applied on replenishment. */
  const RATE_LIMIT_HALF_MIN: int := 10
  /** Room id of the always-present public room. */
  const GLOBAL_SERVER_NAME: string := "__global__"
  /** A frame is compressed when the room holds more than this many users. */
  const COMPRESSION_MIN_USER_THRESHOLD: int := 0
  /** Length of a ban, in milliseconds (30 * 1000). */
  const BAN_MS: int := 30 * 1000
  /** Window length reported to a rejected client, in seconds. */
  const RATE_LIMIT_PERIOD_S: int := 30
}
