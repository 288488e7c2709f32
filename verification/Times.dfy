/** Timestamps as their parser sees them. */
module Times {
  /**
   Instant: the moment in UTC. Malformed: a ValueError. Overflow: the OverflowError of a timestamp
   whose offset moves it out of the years 1 to 9999.
   */
  datatype Parsed = Instant(at: int) | Malformed | Overflow

  type Clock = string -> Parsed
}
