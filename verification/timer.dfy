/** The elapsed-time counter of the quiz: a running flag and a count of
    whole seconds, advanced by an explicit tick event (the one-second
    interval of the hook), plus the `m:ss` clock text shown next to it. */
module Timer {
  import opened Wrappers
  import Seqs
  import opened Text

  datatype TimerState = TimerState(elapsedSeconds: nat, isRunning: bool)

  /** Both state cells start at their initial values: 0 seconds, stopped. */
  const Initial := TimerState(0, false)

  /** `startTimer`: only the running flag changes. */
  function Start(t: TimerState): (r: TimerState)
    ensures r.isRunning && r.elapsedSeconds == t.elapsedSeconds
  {
    t.(isRunning := true)
  }

  /** `stopTimer`: the count is kept, the interval is cleared. */
  function Stop(t: TimerState): (r: TimerState)
    ensures !r.isRunning && r.elapsedSeconds == t.elapsedSeconds
  {
    t.(isRunning := false)
  }

  /** `resetTimer`: back to the initial state from any state. */
  function Reset(t: TimerState): (r: TimerState)
    ensures r.elapsedSeconds == 0 && !r.isRunning
  {
    Initial
  }

  /** One firing of the interval. The interval exists only while the timer
      runs, so a tick on a stopped timer changes nothing. */
  function Tick(t: TimerState): (r: TimerState)
    ensures r.isRunning == t.isRunning
    ensures r.elapsedSeconds == t.elapsedSeconds + (if t.isRunning then 1 else 0)
  {
    if t.isRunning then t.(elapsedSeconds := t.elapsedSeconds + 1) else t
  }

  // ------------------------------------------------------------------ runs

  datatype TimerEvent = StartEvent | StopEvent | ResetEvent | TickEvent

  function Apply(t: TimerState, e: TimerEvent): TimerState
  {
    match e
    case StartEvent => Start(t)
    case StopEvent => Stop(t)
    case ResetEvent => Reset(t)
    case TickEvent => Tick(t)
  }

  /** The state after a sequence of events, oldest first. */
  function Run(t: TimerState, es: seq<TimerEvent>): TimerState
    decreases |es|
  {
    if |es| == 0 then t else Run(Apply(t, es[0]), es[1..])
  }

  /** `n` ticks on a running timer add exactly `n` seconds; on a stopped
      timer they change nothing. */
  lemma {:induction false} Ticks(t: TimerState, n: nat)
    ensures Run(t, seq(n, _ => TickEvent)).isRunning == t.isRunning
    ensures Run(t, seq(n, _ => TickEvent)).elapsedSeconds
            == t.elapsedSeconds + (if t.isRunning then n else 0)
    decreases n
  {
    if n > 0 {
      var es := seq(n, _ => TickEvent);
      assert es[0] == TickEvent;
      assert es[1..] == seq(n - 1, _ => TickEvent);
      Ticks(Tick(t), n - 1);
    }
  }

  /** Without a reset the count never goes down, and it grows by at most
      one per tick event. */
  lemma {:induction false} RunWithoutReset(t: TimerState, es: seq<TimerEvent>)
    requires ResetEvent !in es
    ensures t.elapsedSeconds <= Run(t, es).elapsedSeconds
                             <= t.elapsedSeconds + Seqs.Occ(es, TickEvent)
    decreases |es|
  {
    if |es| > 0 {
      assert ResetEvent !in es[1..] by {
        assert forall i :: 0 <= i < |es| - 1 ==> es[1..][i] == es[i + 1];
      }
      RunWithoutReset(Apply(t, es[0]), es[1..]);
    }
  }

  /** A stopped timer keeps its count until it is started again. */
  lemma {:induction false} StoppedStaysPut(t: TimerState, es: seq<TimerEvent>)
    requires !t.isRunning && StartEvent !in es && ResetEvent !in es
    ensures Run(t, es) == t
    decreases |es|
  {
    if |es| > 0 {
      assert StartEvent !in es[1..] && ResetEvent !in es[1..] by {
        assert forall i :: 0 <= i < |es| - 1 ==> es[1..][i] == es[i + 1];
      }
      StoppedStaysPut(Apply(t, es[0]), es[1..]);
    }
  }

  /** What happened before a reset does not matter afterwards. */
  lemma ResetForgets(t: TimerState, u: TimerState, es: seq<TimerEvent>)
    ensures Run(Reset(t), es) == Run(Reset(u), es)
  {
  }

  // ----------------------------------------------------------------- clock

  /** `secs.toString().padStart(2, '0')` for a value below 100: the tens
      digit, then the units digit. */
  function TwoDigits(v: nat): (r: string)
    requires v < 100
    ensures r == [DigitChar(v / 10), DigitChar(v % 10)]
  {
    var d := NatToString(v);
    if v < 10 then
      assert d == [DigitChar(v)];
      assert v / 10 == 0 && v % 10 == v;
      assert PadStart(d, 2, '0') == PadStart(['0'] + d, 2, '0') == ['0'] + d;
      PadStart(d, 2, '0')
    else
      assert d == NatToString(v / 10) + [DigitChar(v % 10)];
      assert NatToString(v / 10) == [DigitChar(v / 10)];
      d
  }

  /** Value of a two-digit string. */
  lemma TwoDigitValue(t: string)
    requires |t| == 2 && AllDigits(t)
    ensures DecimalValue(t) == DigitValue(t[0]) * 10 + DigitValue(t[1])
  {
    var a := t[..1];
    assert a[..0] == "" && a[0] == t[0];
    assert DecimalValue(a) == DigitValue(t[0]);
    assert t[..|t| - 1] == a;
  }

  /** The two digits read back as `v`. */
  lemma TwoDigitsValue(v: nat)
    requires v < 100
    ensures |TwoDigits(v)| == 2 && AllDigits(TwoDigits(v)) && DecimalValue(TwoDigits(v)) == v
  {
    TwoDigitValue(TwoDigits(v));
  }

  /** `formatTime(seconds)`: the whole minutes in plain decimal, a colon, and
      the remaining seconds as two digits. Reading the two fields back gives
      minutes and seconds that recombine to `s`. */
  function FormatClock(s: nat): (r: string)
    ensures |r| >= 4 && r[|r| - 3] == ':'
    ensures IsCanonicalDecimal(r[..|r| - 3])
    ensures AllDigits(r[|r| - 2..]) && DecimalValue(r[|r| - 2..]) < 60
    ensures DecimalValue(r[..|r| - 3]) * 60 + DecimalValue(r[|r| - 2..]) == s
  {
    var m := NatToString(s / 60);
    var ss := TwoDigits(s % 60);
    TwoDigitsValue(s % 60);
    ClockFields(m, ss, s);
    m + ":" + ss
  }

  lemma ClockFields(m: string, ss: string, s: nat)
    requires IsCanonicalDecimal(m) && DecimalValue(m) == s / 60
    requires |ss| == 2 && AllDigits(ss) && DecimalValue(ss) == s % 60
    ensures var r := m + ":" + ss;
            |r| >= 4 && r[..|r| - 3] == m && r[|r| - 3] == ':' && r[|r| - 2..] == ss
    ensures DecimalValue(m) * 60 + DecimalValue(ss) == s && DecimalValue(ss) < 60
  {
    var r := m + ":" + ss;
    assert r[..|r| - 3] == m;
    assert r[|r| - 2..] == ss;
  }

  /** Reads `m:ss` back: a canonical minutes field, a colon, and exactly two
      second digits below 60. */
  function ParseClock(r: string): (s: Option<nat>)
  {
    if |r| >= 4 && r[|r| - 3] == ':' && IsCanonicalDecimal(r[..|r| - 3])
       && AllDigits(r[|r| - 2..]) && DecimalValue(r[|r| - 2..]) < 60
    then Some(DecimalValue(r[..|r| - 3]) * 60 + DecimalValue(r[|r| - 2..]))
    else None
  }

  /** Formatting then parsing gives the seconds back. */
  lemma ParseFormatClock(s: nat)
    ensures ParseClock(FormatClock(s)) == Some(s)
  {
  }

  /** Any two digits are what `TwoDigits` prints for their value. */
  lemma TwoDigitsOfValue(t: string)
    requires |t| == 2 && AllDigits(t)
    ensures DecimalValue(t) < 100 && TwoDigits(DecimalValue(t)) == t
  {
    TwoDigitValue(t);
    var v := DecimalValue(t);
    assert v / 10 == DigitValue(t[0]) && v % 10 == DigitValue(t[1]);
    DigitCharOfValue(t[0]);
    DigitCharOfValue(t[1]);
  }

  /** Every text `ParseClock` accepts is the formatting of what it reads:
      the clock format has exactly one spelling per number of seconds. */
  lemma FormatParseClock(r: string)
    requires ParseClock(r).Some?
    ensures FormatClock(ParseClock(r).value) == r
  {
    var m := r[..|r| - 3];
    var ss := r[|r| - 2..];
    var s := ParseClock(r).value;
    assert s / 60 == DecimalValue(m) && s % 60 == DecimalValue(ss);
    NatToStringOfValue(m);
    TwoDigitsOfValue(ss);
    assert r == m + ":" + ss;
  }

  /** Clock texts of different durations differ. */
  lemma FormatClockInjective(s: nat, s': nat)
    requires FormatClock(s) == FormatClock(s')
    ensures s == s'
  {
    ParseFormatClock(s);
    ParseFormatClock(s');
  }
}
