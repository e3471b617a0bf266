/**
 * Clock times as seconds since midnight. The engine only ever keeps the time part of a
 * `datetime`, as the text `str(t.time())`, i.e. "HH:MM:SS"; reading such a text back is
 * `datetime.strptime(text, "%H:%M:%S")`.
 */
module TimeOfDay {
  import opened Common
  import opened PyStr

  const DAY := 86400

  /** `"%02d" % n` */
  function Pad2(n: nat): (s: string)
    requires n < 100
    ensures |s| == 2
  {
    [DigitChar(n / 10), DigitChar(n % 10)]
  }

  /** The two characters of Pad2(n) are digits that read back as n. */
  lemma Pad2Digits(n: nat)
    requires n < 100
    ensures AllDigits(Pad2(n)) && DigitsValue(Pad2(n)) == n
  {
    var s := Pad2(n);
    assert s[..1] == [DigitChar(n / 10)] && s[..1][..0] == [];
    assert DigitsValue(s[..1]) == n / 10;
  }

  /** `str(time)` of a whole-second clock time: zero-padded "HH:MM:SS". */
  function Format(t: int): (s: string)
    requires 0 <= t < DAY
    ensures |s| == 8
  {
    var r := t % 3600;
    Pad2(t / 3600) + (":" + (Pad2(r / 60) + (":" + Pad2(r % 60))))
  }

  /** `s.split(":")` */
  function Split(s: string): (parts: seq<string>)
    ensures |parts| >= 1
    decreases |s|
  {
    if s == [] then [""]
    else if s[0] == ':' then [""] + Split(s[1..])
    else var rest := Split(s[1..]); [[s[0]] + rest[0]] + rest[1..]
  }

  /** `":".join(parts)` */
  function Join(parts: seq<string>): string
    requires |parts| >= 1
  {
    if |parts| == 1 then parts[0] else parts[0] + (":" + Join(parts[1..]))
  }

  /** One `%H`, `%M` or `%S` field: one or two ASCII digits denoting a value below `bound`. */
  function Field(s: string, bound: nat): (r: Option<nat>)
    ensures r.Some? ==> r.value < bound
  {
    if 1 <= |s| <= 2 && AllDigits(s) && DigitsValue(s) < bound then Some(DigitsValue(s)) else None
  }

  /**
   * `datetime.strptime(s, "%H:%M:%S").time()` as seconds since midnight; None where strptime
   * raises ValueError (wrong shape, hour above 23, minute or second above 59).
   */
  function Parse(s: string): (r: Option<int>)
    ensures r.Some? ==> 0 <= r.value < DAY
  {
    var p := Split(s);
    if |p| != 3 then None
    else match (Field(p[0], 24), Field(p[1], 60), Field(p[2], 60))
      case (Some(h), Some(m), Some(x)) => Some(3600 * h + 60 * m + x)
      case _ => None
  }

  /** `(datetime + timedelta(seconds=seconds)).time()`: the clock wraps at midnight in both directions. */
  function Shift(t: int, seconds: int): (r: int)
    ensures 0 <= r < DAY
    ensures (r - t - seconds) % DAY == 0
  {
    (t + seconds) % DAY
  }

  lemma {:induction false} SplitPrefix(a: string, b: string)
    requires ':' !in a
    ensures Split(a + b) == [a + Split(b)[0]] + Split(b)[1..]
  {
    if a == [] {
      assert a + b == b;
      assert a + Split(b)[0] == Split(b)[0];
      assert Split(b) == [Split(b)[0]] + Split(b)[1..];
    } else {
      assert a[0] in a;
      assert (a + b)[0] == a[0] != ':';
      assert (a + b)[1..] == a[1..] + b;
      SplitPrefix(a[1..], b);
      var rest := Split(a[1..] + b);
      assert Split(a + b) == [[a[0]] + rest[0]] + rest[1..];
      assert [a[0]] + (a[1..] + Split(b)[0]) == a + Split(b)[0];
    }
  }

  lemma SplitThree(a: string, b: string, c: string)
    requires ':' !in a && ':' !in b && ':' !in c
    ensures Split(a + (":" + (b + (":" + c)))) == [a, b, c]
  {
    var y := b + (":" + c);
    SplitPrefix(c, "");
    assert c + "" == c && Split("") == [""];
    assert Split(c) == [c];
    assert Split(":" + c) == [""] + Split(c);
    SplitPrefix(b, ":" + c);
    assert Split(":" + c)[0] == "" && Split(":" + c)[1..] == [c];
    assert b + "" == b;
    assert Split(y) == [b, c];
    assert Split(":" + y) == [""] + Split(y);
    SplitPrefix(a, ":" + y);
    assert a + "" == a;
  }

  lemma ConcatAssoc<T>(x: seq<T>, y: seq<T>, z: seq<T>)
    ensures (x + y) + z == x + (y + z)
  {
  }

  /** Splitting at the colons and joining with colons gives the text back. */
  lemma {:induction false} JoinSplit(s: string)
    ensures Join(Split(s)) == s
    decreases |s|
  {
    if s != [] {
      assert s == [s[0]] + s[1..];
      var rest := Split(s[1..]);
      JoinSplit(s[1..]);
      if s[0] == ':' {
        var parts := [""] + rest;
        assert Split(s) == parts && parts[1..] == rest;
        assert Join(parts) == "" + (":" + Join(rest));
        assert "" + (":" + Join(rest)) == [':'] + s[1..];
      } else {
        var tail := if |rest| == 1 then "" else ":" + Join(rest[1..]);
        var parts := [[s[0]] + rest[0]] + rest[1..];
        assert Split(s) == parts && parts[1..] == rest[1..];
        assert Join(parts) == ([s[0]] + rest[0]) + tail;
        assert Join(rest) == rest[0] + tail;
        ConcatAssoc([s[0]], rest[0], tail);
      }
    }
  }

  lemma DigitsNoColon(s: string)
    requires AllDigits(s)
    ensures ':' !in s
  {
  }

  lemma Pad2Of(s: string)
    requires |s| == 2 && AllDigits(s)
    ensures DigitsValue(s) < 100 && Pad2(DigitsValue(s)) == s
  {
    assert s[..1] == [s[0]] && s[..1][..0] == [];
    var a, b := DigitValue(s[0]), DigitValue(s[1]);
    assert DigitsValue(s[..1]) == a;
    assert DigitsValue(s) == 10 * a + b;
  }

  /** Reading back a formatted time gives the same time. */
  lemma ParseFormat(t: int)
    requires 0 <= t < DAY
    ensures Parse(Format(t)) == Some(t)
  {
    var r := t % 3600;
    var h, m, x := Pad2(t / 3600), Pad2(r / 60), Pad2(r % 60);
    Pad2Digits(t / 3600);
    Pad2Digits(r / 60);
    Pad2Digits(r % 60);
    DigitsNoColon(h);
    DigitsNoColon(m);
    DigitsNoColon(x);
    SplitThree(h, m, x);
  }

  /** A text that parses and is 8 characters long is exactly the format of the time it denotes. */
  lemma FormatParse(s: string)
    requires Parse(s).Some? && |s| == 8
    ensures Format(Parse(s).value) == s
  {
    var p := Split(s);
    JoinSplit(s);
    assert Join(p[1..]) == p[1] + (":" + p[2]) by {
      assert p[1..][0] == p[1] && p[1..][1..] == [p[2]];
    }
    assert s == p[0] + (":" + (p[1] + (":" + p[2])));
    assert |p[0]| == 2 && |p[1]| == 2 && |p[2]| == 2;
    Pad2Of(p[0]);
    Pad2Of(p[1]);
    Pad2Of(p[2]);
    var h, m, x := DigitsValue(p[0]), DigitsValue(p[1]), DigitsValue(p[2]);
    var t := 3600 * h + 60 * m + x;
    assert t / 3600 == h;
    assert t % 3600 == 60 * m + x;
    assert (60 * m + x) / 60 == m;
    assert (60 * m + x) % 60 == x;
  }

  /** Shifting by s and then by -s restores every clock time. */
  lemma ShiftBack(t: int, seconds: int)
    requires 0 <= t < DAY
    ensures Shift(Shift(t, seconds), -seconds) == t
  {
    var q := (t + seconds) / DAY;
    assert Shift(t, seconds) == t + seconds - DAY * q;
    assert Shift(t, seconds) - seconds == t + DAY * (-q);
  }

  /** Shifting by a whole number of days changes nothing. */
  lemma ShiftWholeDays(t: int, days: int)
    requires 0 <= t < DAY
    ensures Shift(t, DAY * days) == t
  {
  }
}
