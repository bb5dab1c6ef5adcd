/**
 * IntervalLogger: a logger that forwards a repeated message with
 * decreasing frequency, keyed by a per-message attempt counter.
 */
module IntervalLogger {
  import opened JavaBase
  import opened JavaBits

  /** MAX_INTERVAL: beyond this many attempts only every 1024th is logged. */
  const MAX_INTERVAL: int := 1024

  datatype Level = Error | Debug

  /** One call received by the delegate logger. */
  datatype Entry<M> = Entry(level: Level, msg: M)

  /** A positive power of two. */
  predicate IsPow2(n: nat)
    decreases n
  {
    n == 1 || (n > 1 && n % 2 == 0 && IsPow2(n / 2))
  }

  /** `timesTriedToLogMap.getOrDefault(msg, 0)`. */
  function Count<M>(counts: map<M, int>, msg: M): int
  {
    if msg in counts then counts[msg] else 0
  }

  /** The decision shouldLog takes for a message tried c times before. */
  function ShouldLogAt(c: int): bool
    requires IsInt(c)
  {
    if c > MAX_INTERVAL then c % MAX_INTERVAL == 0
    else IntAnd(c, WrapInt(c - 1)) == 0
  }

  /** The bit trick `n & (n - 1) == 0` recognises the powers of two. */
  lemma {:induction false} BitTrickPow2(n: nat)
    requires n >= 1
    ensures BitAnd(n, n - 1) == 0 <==> IsPow2(n)
    decreases n
  {
    if n % 2 == 1 {
      if n > 1 {
        BitAndSelf(n / 2);
        assert (n - 1) / 2 == n / 2;
        assert BitAnd(n, n - 1) == 2 * BitAnd(n / 2, n / 2);
      }
    } else {
      BitTrickPow2(n / 2);
      assert (n - 1) / 2 == n / 2 - 1;
      assert BitAnd(n, n - 1) == 2 * BitAnd(n / 2, n / 2 - 1);
    }
  }

  lemma {:induction false} BitAndBelow(a: nat, b: nat)
    ensures BitAnd(a, b) <= a
    decreases a + b
  {
    if a != 0 && b != 0 { BitAndBelow(a / 2, b / 2); }
  }

  lemma {:induction false} BitAndZeroLeft(b: nat)
    ensures BitAnd(0, b) == 0
  {
  }

  /**
   * Up to MAX_INTERVAL attempts a message is logged on attempts 0, 1, 2,
   * 4, 8, ...: exactly when the prior count is 0 or a power of two.
   */
  lemma {:induction false} ShouldLogSmall(c: int)
    requires 0 <= c <= MAX_INTERVAL
    ensures ShouldLogAt(c) <==> c == 0 || IsPow2(c)
  {
    if c == 0 {
      assert WrapInt(c - 1) == -1;
      BitAndZeroLeft(UInt32(-1));
      assert IntAnd(0, -1) == WrapInt(0) == 0;
    } else {
      assert WrapInt(c - 1) == c - 1;
      assert UInt32(c) == c && UInt32(c - 1) == c - 1;
      var both := BitAnd(c, c - 1);
      BitAndBelow(c, c - 1);
      assert IntAnd(c, c - 1) == WrapInt(both) == both;
      BitTrickPow2(c);
    }
  }

  /** Past MAX_INTERVAL attempts, only every 1024th attempt is logged. */
  lemma {:induction false} ShouldLogLarge(c: int)
    requires MAX_INTERVAL < c <= INT_MAX
    ensures ShouldLogAt(c) <==> exists k :: 1 <= k <= c / MAX_INTERVAL && c == k * MAX_INTERVAL
  {
    if c % MAX_INTERVAL == 0 {
      assert c == (c / MAX_INTERVAL) * MAX_INTERVAL;
    } else {
      forall k | 1 <= k <= c / MAX_INTERVAL ensures c != k * MAX_INTERVAL {
        if c == k * MAX_INTERVAL { DivModUnique(c, MAX_INTERVAL, k, 0); }
      }
    }
  }

  /**
   * The logger's state: the attempt counters and the calls forwarded to
   * the delegate logger so far.
   */
  class IntervalLogger<M(==)> {
    var counts: map<M, int>
    var output: seq<Entry<M>>

    ghost predicate Valid()
      reads this
    {
      forall m :: m in counts ==> IsInt(counts[m])
    }

    constructor ()
      ensures Valid() && counts == map[] && output == []
    {
      counts := map[];
      output := [];
    }

    /** shouldLog: decides on the prior count and counts this attempt (with int wrap-around). */
    method ShouldLog(msg: M) returns (log: bool)
      requires Valid()
      modifies this`counts
      ensures Valid()
      ensures log == ShouldLogAt(Count(old(counts), msg))
      ensures counts == old(counts)[msg := WrapInt(Count(old(counts), msg) + 1)]
    {
      var timesTried := if msg in counts then counts[msg] else 0;
      log := ShouldLogAt(timesTried);
      timesTried := WrapInt(timesTried + 1);
      counts := counts[msg := timesTried];
    }

    /** debug: forwards the message when shouldLog says so. */
    method Debug(msg: M)
      requires Valid()
      modifies this
      ensures Valid()
      ensures counts == old(counts)[msg := WrapInt(Count(old(counts), msg) + 1)]
      ensures output == old(output) + if ShouldLogAt(Count(old(counts), msg)) then [Entry(Level.Debug, msg)] else []
    {
      var log := ShouldLog(msg);
      if log {
        output := output + [Entry(Level.Debug, msg)];
      }
    }

    /** isFirstLog as written: true when the message HAS been counted before. */
    method IsFirstLogAsWritten(msg: M) returns (first: bool)
      ensures first <==> msg in counts
    {
      first := msg in counts;
    }

    /** errorAndIntervalDebug as written. */
    method ErrorAndIntervalDebugAsWritten(msg: M)
      requires Valid()
      modifies this
      ensures Valid()
      ensures (counts, output) == AsWrittenStep(old(counts), old(output), msg)
    {
      var first := IsFirstLogAsWritten(msg);
      if first {
        output := output + [Entry(Level.Error, msg)];
      } else {
        var log := ShouldLog(msg);
        if log {
          output := output + [Entry(Level.Debug, msg)];
        }
      }
    }

    /**
     * errorAndIntervalDebug as documented: the first attempt at a message is
     * logged as an error, later ones are interval-logged at debug level.
     */
    method ErrorAndIntervalDebug(msg: M)
      requires Valid()
      modifies this
      ensures Valid()
      ensures (counts, output) == IntendedStep(old(counts), old(output), msg)
    {
      var first := msg !in counts;
      var log := ShouldLog(msg);
      if first {
        output := output + [Entry(Level.Error, msg)];
      } else if log {
        output := output + [Entry(Level.Debug, msg)];
      }
    }
  }

  /** The effect of errorAndIntervalDebug as written on the counters and the delegate's log. */
  function AsWrittenStep<M>(counts: map<M, int>, output: seq<Entry<M>>, msg: M): (map<M, int>, seq<Entry<M>>)
    requires forall m :: m in counts ==> IsInt(counts[m])
  {
    var c := Count(counts, msg);
    var next := counts[msg := WrapInt(c + 1)];
    if msg in counts then (counts, output + [Entry(Error, msg)])
    else if ShouldLogAt(c) then (next, output + [Entry(Debug, msg)])
    else (next, output)
  }

  /** The effect of errorAndIntervalDebug as documented. */
  function IntendedStep<M>(counts: map<M, int>, output: seq<Entry<M>>, msg: M): (map<M, int>, seq<Entry<M>>)
    requires forall m :: m in counts ==> IsInt(counts[m])
  {
    var c := Count(counts, msg);
    var next := counts[msg := WrapInt(c + 1)];
    if msg !in counts then (next, output + [Entry(Error, msg)])
    else if ShouldLogAt(c) then (next, output + [Entry(Debug, msg)])
    else (next, output)
  }

  /**
   * As written, a fresh message is first logged at DEBUG and from then on at
   * ERROR on every call, and its counter never moves again.
   */
  lemma {:induction false} AsWrittenInverted<M>(counts: map<M, int>, output: seq<Entry<M>>, msg: M)
    requires forall m :: m in counts ==> IsInt(counts[m])
    requires msg !in counts
    ensures AsWrittenStep(counts, output, msg) == (counts[msg := 1], output + [Entry(Debug, msg)])
    ensures var (c1, o1) := AsWrittenStep(counts, output, msg);
      AsWrittenStep(c1, o1, msg) == (c1, output + [Entry(Debug, msg), Entry(Error, msg)])
  {
    AsWrittenFirst(counts, output, msg);
    var c1, o1 := counts[msg := 1], output + [Entry(Debug, msg)];
    AsWrittenErrorsForever(c1, o1, msg);
    assert o1 + [Entry(Error, msg)] == output + [Entry(Debug, msg), Entry(Error, msg)];
  }

  /** As written, the first call on a fresh message logs it at DEBUG. */
  lemma {:induction false} AsWrittenFirst<M>(counts: map<M, int>, output: seq<Entry<M>>, msg: M)
    requires forall m :: m in counts ==> IsInt(counts[m])
    requires msg !in counts
    ensures AsWrittenStep(counts, output, msg).0 == counts[msg := 1]
    ensures AsWrittenStep(counts, output, msg).1 == output + [Entry(Debug, msg)]
  {
    FirstAttemptLogged();
  }

  /** The very first attempt at a message always passes the interval test. */
  lemma {:induction false} FirstAttemptLogged()
    ensures ShouldLogAt(0)
  {
    ShouldLogSmall(0);
  }

  /** As written, a message already counted is logged at ERROR and its counter is left alone. */
  lemma {:induction false} AsWrittenErrorsForever<M>(counts: map<M, int>, output: seq<Entry<M>>, msg: M)
    requires forall m :: m in counts ==> IsInt(counts[m])
    requires msg in counts
    ensures AsWrittenStep(counts, output, msg) == (counts, output + [Entry(Error, msg)])
  {
  }

  /**
   * As documented: the first call logs an error, the following ones log at
   * debug on attempts 1, 2, 4, 8, ... and every call is counted.
   */
  lemma {:induction false} IntendedFirstIsError<M>(counts: map<M, int>, output: seq<Entry<M>>, msg: M)
    requires forall m :: m in counts ==> IsInt(counts[m])
    ensures msg !in counts ==> IntendedStep(counts, output, msg).1 == output + [Entry(Error, msg)]
    ensures msg in counts && 0 <= counts[msg] <= MAX_INTERVAL ==>
      (IntendedStep(counts, output, msg).1 == output + [Entry(Debug, msg)] <==> counts[msg] == 0 || IsPow2(counts[msg]))
    ensures IntendedStep(counts, output, msg).0 == counts[msg := WrapInt(Count(counts, msg) + 1)]
  {
    if msg in counts && 0 <= counts[msg] <= MAX_INTERVAL {
      ShouldLogSmall(counts[msg]);
      var o := IntendedStep(counts, output, msg).1;
      if !ShouldLogAt(counts[msg]) { assert |o| == |output|; }
    }
  }
}
