/** TrustedLeaseClock (SessionLeaseRuntime.cs): a clock anchored to verified server time and advanced
    by the monotonic timestamp source, so that setting the Windows clock back cannot revive a lease. */
module TrustedClock {
  import opened Leases

  class TrustedLeaseClock {
    var anchor: Time
    var started: Time
    /** The latest reading of the monotonic timestamp source. */
    var ticks: Time

    ghost predicate Valid() reads this { started <= ticks }

    ghost function Value(): Time reads this { anchor + (ticks - started) }

    /** The constructor reads the wall clock twice: once for the test, once for the value. */
    constructor (floor: Time, wallTested: Time, wallTaken: Time, timestamp: Time)
      ensures Valid()
      ensures Value() == StartValue(floor, wallTested, wallTaken)
    {
      started := timestamp;
      ticks := timestamp;
      anchor := if wallTested > floor then wallTaken else floor;
    }

    /** Time passes: the timestamp source moves forward. */
    method Elapse(d: nat)
      requires Valid()
      modifies this`ticks
      ensures Valid() && Value() == old(Value()) + d
    {
      ticks := ticks + d;
    }

    method Now() returns (t: Time)
      requires Valid()
      ensures t == Value()
    {
      t := anchor + (ticks - started);
    }

    method Observe(serverTime: Time)
      requires Valid()
      modifies this`anchor, this`started
      ensures Valid()
      ensures Value() == if serverTime > old(Value()) then serverTime else old(Value())
    {
      if serverTime > anchor + (ticks - started) {
        anchor := serverTime;
        started := ticks;
      }
    }
  }

  function StartValue(floor: Time, wallTested: Time, wallTaken: Time): Time {
    if wallTested > floor then wallTaken else floor
  }

  /** A restarted clock is at or above the saved floor exactly when the wall clock was not stepped
      below the floor between the two reads of the constructor. */
  lemma StartsAtOrAboveFloor(floor: Time, wallTested: Time, wallTaken: Time)
    ensures floor <= StartValue(floor, wallTested, wallTaken) <==> wallTested <= floor || floor <= wallTaken
  {
  }

  /** With one read per construction the clock starts at the later of floor and wall clock. */
  lemma SingleReadStartsAtMaximum(floor: Time, wall: Time)
    ensures StartValue(floor, wall, wall) >= floor && StartValue(floor, wall, wall) >= wall
    ensures StartValue(floor, wall, wall) in {floor, wall}
  {
  }

  /** A lease that must lock at some trusted time must lock at every later one. */
  lemma ExpiredStaysExpired(l: Lease, earlier: Time, later: Time)
    requires earlier <= later
    requires MustLock(l, earlier)
    ensures MustLock(l, later)
  {
  }
}
