/**
 The lap timer display: a non-negative number of seconds split into hours,
 minutes, seconds and milliseconds, then written `HH:MM:SS.mmm` with every
 field zero-padded.

 The seconds value is an exact real. Python's float `//` and `%` with a
 positive divisor are floor division and the floor remainder; `int()` of
 a non-negative value is its floor.
 */
module TimerFormat {

  import opened Decimal
  import opened Arith

  /** The four displayed fields. */
  datatype Clock = Clock(hours: int, minutes: int, seconds: int, millis: int)

  /** The outcome of reading a timer string back. */
  datatype Reading = Read(clock: Clock) | Unreadable

  /** Python's `t % m` for a positive divisor: what is left of `t` after
      taking away a whole multiple of `m`, in [0, m). */
  function FloorMod(t: real, m: real): (r: real)
    requires m > 0.0
    ensures 0.0 <= r < m
    ensures exists k: int :: t == Multiple(k, m) + r
  {
    var k := (t / m).Floor;
    var q := k as real;
    FloorModBounds(t, m, q);
    assert t == Multiple(k, m) + (t - q * m);
    t - q * m
  }

  /** `k` times `m`, for a whole number `k`. */
  function Multiple(k: int, m: real): real
  {
    k as real * m
  }

  lemma FloorModBounds(t: real, m: real, q: real)
    requires m > 0.0 && q == (t / m).Floor as real
    ensures q * m <= t < q * m + m
  {
    FloorModLower(t, m, q);
    FloorModUpper(t, m, q);
  }

  lemma FloorModLower(t: real, m: real, q: real)
    requires m > 0.0 && q == (t / m).Floor as real
    ensures q * m <= t
  {
    var y := t / m;
    assert t == y * m;
    assert q <= y;
    if y > q {
      MulLtReal(q, y, m);
      assert q * m < y * m;
    } else {
      assert y == q;
      assert y * m == q * m;
    }
  }

  lemma FloorModUpper(t: real, m: real, q: real)
    requires m > 0.0 && q == (t / m).Floor as real
    ensures t < q * m + m
  {
    var y := t / m;
    assert t == y * m;
    assert y < q + 1.0;
    MulLtReal(y, q + 1.0, m);
    assert y * m < (q + 1.0) * m;
    assert (q + 1.0) * m == q * m + m;
  }

  /** Splitting `t` seconds into the four fields. */
  function Split(t: real): (c: Clock)
    requires t >= 0.0
    ensures c.hours >= 0
    ensures 0 <= c.minutes < 60 && 0 <= c.seconds < 60 && 0 <= c.millis < 1000
    ensures c.hours * 3600 + c.minutes * 60 + c.seconds == t.Floor
    ensures c.millis as real <= (t - t.Floor as real) * 1000.0 < c.millis as real + 1.0
  {
    var hours := (t / 3600.0).Floor;
    var minutes := (FloorMod(t, 3600.0) / 60.0).Floor;
    var seconds := FloorMod(t, 60.0).Floor;
    var millis := ((t - t.Floor as real) * 1000.0).Floor;
    SplitWhole(t);
    MixedRadix(t.Floor);
    Clock(hours, minutes, seconds, millis)
  }

  /** The floor of `x / m` is the whole part of `x` divided by `m`. */
  lemma FloorOfQuotient(x: real, m: int)
    requires x >= 0.0 && m > 0
    ensures (x / m as real).Floor == x.Floor / m
  {
    var f := x.Floor;
    var q := f / m;
    assert q * m <= f < q * m + m;
    CastMul(q, m);
    CastMul(q + 1, m);
    var y := x / m as real;
    assert x == y * m as real;
    FloorBetween(y, q, m as real);
  }

  /** Converting to real commutes with multiplication. */
  lemma CastMul(a: int, b: int)
    ensures (a * b) as real == a as real * b as real
  {
  }

  /** A value whose multiple by a positive factor lies between the
      multiples of `q` and `q + 1` has floor `q`. */
  lemma FloorBetween(y: real, q: int, m: real)
    requires m > 0.0
    requires q as real * m <= y * m < (q + 1) as real * m
    ensures y.Floor == q
  {
    if y < q as real {
      MulLtReal(y, q as real, m);
      assert false;
    }
    if (q + 1) as real <= y {
      MulLeReal((q + 1) as real, y, m);
      assert false;
    }
  }

  /** The hour, minute and second fields are the whole seconds in mixed
      radix. */
  lemma SplitWhole(t: real)
    requires t >= 0.0
    ensures var f := t.Floor;
            && (t / 3600.0).Floor == f / 3600
            && (FloorMod(t, 3600.0) / 60.0).Floor == f % 3600 / 60
            && FloorMod(t, 60.0).Floor == f % 60
  {
    var f := t.Floor;
    FloorOfQuotient(t, 3600);
    FloorOfQuotient(t, 60);
    var h := f / 3600;
    var rest := FloorMod(t, 3600.0);
    assert rest == t - (3600 * h) as real;
    assert rest.Floor == f - 3600 * h;
    FloorOfQuotient(rest, 60);
    assert FloorMod(t, 60.0) == t - (60 * (f / 60)) as real;
  }

  /** Hours, minutes and seconds recombine to the whole seconds. */
  lemma MixedRadix(f: int)
    requires f >= 0
    ensures 0 <= f % 3600 / 60 < 60 && 0 <= f % 60 < 60
    ensures f / 3600 * 3600 + f % 3600 / 60 * 60 + f % 60 == f
  {
    var h, rest := f / 3600, f % 3600;
    assert f == h * 3600 + rest;
    var m, sec := rest / 60, rest % 60;
    assert rest == m * 60 + sec;
    assert f == (h * 60 + m) * 60 + sec;
    DivModUnique(f, 60, h * 60 + m, sec);
  }

  /** The timer text for `t` seconds. */
  function FormatTime(t: real): string
    requires t >= 0.0
  {
    Layout(Split(t))
  }

  function Layout(c: Clock): string
    requires c.hours >= 0 && 0 <= c.minutes && 0 <= c.seconds && 0 <= c.millis
  {
    Padded(c.hours, 2) + ":" + Padded(c.minutes, 2) + ":" + Padded(c.seconds, 2)
      + "." + Padded(c.millis, 3)
  }

  /** Below 100 hours the timer text is `HH:MM:SS.mmm`: twelve characters,
      separators in fixed places and digits everywhere else. */
  lemma FormatTimeLayout(t: real)
    requires t >= 0.0
    ensures var s, c := FormatTime(t), Split(t);
            c.hours < 100 ==>
              && |s| == 12
              && s[2] == ':' && s[5] == ':' && s[8] == '.'
              && forall i :: 0 <= i < 12 && i !in {2, 5, 8} ==> IsDigit(s[i])
  {
    var c := Split(t);
    if c.hours < 100 {
      PaddedWidth(c.hours, 2);
      PaddedWidth(c.minutes, 2);
      PaddedWidth(c.seconds, 2);
      PaddedWidth(c.millis, 3);
    }
  }

  /** Reads a timer string back: the last ten characters are `:MM:SS.mmm`
      and whatever precedes them, at least two digits, is the hours. */
  function ParseTime(s: string): (r: Reading)
  {
    if |s| < 12 then Unreadable else ReadFields(s[..|s| - 10], s[|s| - 10..])
  }

  function ReadFields(h: string, tail: string): (r: Reading)
    requires |tail| == 10
  {
    if tail[0] != ':' || tail[3] != ':' || tail[6] != '.' then Unreadable
    else
      var m, sec, ms := tail[1..3], tail[4..6], tail[7..];
      if AllDigits(h) && AllDigits(m) && AllDigits(sec) && AllDigits(ms) then
        Read(Clock(Value(h), Value(m), Value(sec), Value(ms)))
      else Unreadable
  }

  /** The fixed-width tail of the layout and where its fields sit. */
  lemma TailFields(pm: string, ps: string, pms: string)
    requires |pm| == 2 && |ps| == 2 && |pms| == 3
    ensures var tail := ":" + pm + ":" + ps + "." + pms;
            && |tail| == 10
            && tail[0] == ':' && tail[3] == ':' && tail[6] == '.'
            && tail[1..3] == pm && tail[4..6] == ps && tail[7..] == pms
  {
  }

  /** Reading back a layout whose minute and second fields take two
      characters and whose millisecond field takes three recovers the
      field values. */
  lemma ParseLayout(ph: string, pm: string, ps: string, pms: string)
    requires AllDigits(ph) && AllDigits(pm) && AllDigits(ps) && AllDigits(pms)
    requires |ph| >= 2 && |pm| == 2 && |ps| == 2 && |pms| == 3
    ensures ParseTime(ph + ":" + pm + ":" + ps + "." + pms)
         == Read(Clock(Value(ph), Value(pm), Value(ps), Value(pms)))
  {
    var tail := ":" + pm + ":" + ps + "." + pms;
    TailFields(pm, ps, pms);
    var s := ph + ":" + pm + ":" + ps + "." + pms;
    assert s == ph + tail;
    assert s[..|s| - 10] == ph;
    assert s[|s| - 10..] == tail;
  }

  /** Reading the timer text back gives the split fields: the text loses
      nothing and carries each field in its place. */
  lemma ParseFormatTime(t: real)
    requires t >= 0.0
    ensures ParseTime(FormatTime(t)) == Read(Split(t))
  {
    var c := Split(t);
    PaddedWidth(c.minutes, 2);
    PaddedWidth(c.seconds, 2);
    PaddedWidth(c.millis, 3);
    ParseLayout(Padded(c.hours, 2), Padded(c.minutes, 2), Padded(c.seconds, 2), Padded(c.millis, 3));
  }
}
