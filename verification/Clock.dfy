module Clock {
  /** Nanoseconds since Go's zero time, the start of 1 January of year 1, which is 0. */
  type Instant = int
}
