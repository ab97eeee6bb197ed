/** What the stores share (src/store.hpp). */
module Common {

  /** The outcome of an update or remove. */
  datatype MutResult = Ok | Missing | Remote

  /** A time to live of 0 or less means no expiry. */
  function ExpiryFor(now: int, ttl: int): int { if ttl > 0 then now + ttl else 0 }
}
