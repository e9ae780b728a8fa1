/** The duration parser: a "H:M:S" text becomes decimal hours, and any text
    that is not three colon-separated integers becomes 0.0 (app.py:21-26).
    Hours are exact reals here, not binary floating point. */
module Duration {

  datatype Option<T> = None | Some(value: T)

  /** Python's `str.split(sep)`: the pieces between separators, left to right;
      there is always at least one piece, and no piece holds the separator. */
  function Split(s: string, sep: char): (parts: seq<string>)
    ensures |parts| >= 1
    ensures forall i :: 0 <= i < |parts| ==> sep !in parts[i]
  {
    if s == [] then [[]]
    else
      var rest := Split(s[1..], sep);
      if s[0] == sep then [[]] + rest
      else [[s[0]] + rest[0]] + rest[1..]
  }

  /** The inverse of Split: the pieces glued back together with the separator. */
  function Join(parts: seq<string>, sep: char): string
  {
    if parts == [] then []
    else if |parts| == 1 then parts[0]
    else parts[0] + [sep] + Join(parts[1..], sep)
  }

  /** Gluing the pieces of a split gives back the text it came from. */
  lemma {:induction false} JoinSplit(s: string, sep: char)
    ensures Join(Split(s, sep), sep) == s
  {
    if s != [] {
      var rest := Split(s[1..], sep);
      JoinSplit(s[1..], sep);
      if s[0] == sep {
        assert Split(s, sep)[1..] == rest;
      } else if |rest| == 1 {
        assert Join(Split(s, sep), sep) == [s[0]] + rest[0];
      } else {
        var parts := Split(s, sep);
        assert parts[1..] == rest[1..];
        assert Join(rest, sep) == rest[0] + [sep] + Join(rest[1..], sep);
        calc {
          Join(parts, sep);
          ([s[0]] + rest[0]) + [sep] + Join(rest[1..], sep);
          [s[0]] + (rest[0] + [sep] + Join(rest[1..], sep));
          [s[0]] + s[1..];
        }
      }
    }
  }

  /** A text without the separator splits into itself alone. */
  lemma {:induction false} SplitNoSeparator(t: string, sep: char)
    requires sep !in t
    ensures Split(t, sep) == [t]
  {
    if t != [] {
      SplitNoSeparator(t[1..], sep);
      assert [t[0]] + t[1..] == t;
    }
  }

  /** Splitting `t + [sep] + u`, where `t` has no separator, yields `t`
      followed by the pieces of `u`. */
  lemma {:induction false} SplitAfterPiece(t: string, sep: char, u: string)
    requires sep !in t
    ensures Split(t + [sep] + u, sep) == [t] + Split(u, sep)
  {
    if t == [] {
      assert [] + [sep] + u == [sep] + u;
      assert ([sep] + u)[1..] == u;
    } else {
      var s := t + [sep] + u;
      assert s[0] == t[0] && s[1..] == t[1..] + [sep] + u;
      SplitAfterPiece(t[1..], sep, u);
      assert [t[0]] + t[1..] == t;
    }
  }

  /** Splitting glued pieces that hold no separator gives the pieces back. */
  lemma {:induction false} SplitJoin(parts: seq<string>, sep: char)
    requires |parts| >= 1
    requires forall i :: 0 <= i < |parts| ==> sep !in parts[i]
    ensures Split(Join(parts, sep), sep) == parts
  {
    if |parts| == 1 {
      SplitNoSeparator(parts[0], sep);
    } else {
      SplitJoin(parts[1..], sep);
      SplitAfterPiece(parts[0], sep, Join(parts[1..], sep));
      assert [parts[0]] + parts[1..] == parts;
    }
  }

  /** Every character of every piece comes from the text that was split. */
  lemma {:induction false} SplitCharacters(s: string, sep: char, i: nat, c: char)
    requires i < |Split(s, sep)| && c in Split(s, sep)[i]
    ensures c in s
  {
    if s != [] {
      var rest := Split(s[1..], sep);
      if s[0] == sep {
        SplitCharacters(s[1..], sep, i - 1, c);
      } else if i == 0 {
        if c != s[0] {
          assert c in rest[0];
          SplitCharacters(s[1..], sep, 0, c);
        }
      } else {
        SplitCharacters(s[1..], sep, i, c);
      }
    }
  }

  predicate IsDigit(c: char)
  {
    '0' <= c <= '9'
  }

  predicate AllDigits(t: string)
  {
    forall i :: 0 <= i < |t| ==> IsDigit(t[i])
  }

  function DigitValue(c: char): nat
    requires IsDigit(c)
  {
    (c as int) - ('0' as int)
  }

  function DigitChar(d: nat): char
    requires d < 10
  {
    (('0' as int) + d) as char
  }

  /** The number a string of decimal digits denotes (leading zeros allowed). */
  function DigitsValue(ds: string): nat
    requires AllDigits(ds)
  {
    if ds == [] then 0
    else 10 * DigitsValue(ds[..|ds| - 1]) + DigitValue(ds[|ds| - 1])
  }

  /** Python's `int(token)` on the grammar modelled here: an optional `+` or
      `-` followed by one or more decimal digits; anything else fails. */
  function ParseInt(t: string): (r: Option<int>)
    ensures r.Some? ==> |t| >= 1
    ensures r.Some? ==> forall i :: 0 <= i < |t| ==> IsDigit(t[i]) || (i == 0 && (t[i] == '+' || t[i] == '-'))
    ensures r.Some? && t[0] == '-' ==> r.value <= 0
    ensures r.Some? && t[0] != '-' ==> r.value >= 0
    ensures r.Some? && (t[0] == '+' || t[0] == '-') ==> |t| >= 2
  {
    var hasSign := t != [] && (t[0] == '+' || t[0] == '-');
    var digits := if hasSign then t[1..] else t;
    if digits != [] && AllDigits(digits) then
      var n: int := DigitsValue(digits);
      Some(if hasSign && t[0] == '-' then -n else n)
    else None
  }

  /** The decimal digits of a natural number, without leading zeros. */
  function FormatNat(n: nat): (ds: string)
    ensures |ds| >= 1 && AllDigits(ds)
  {
    if n < 10 then [DigitChar(n)] else FormatNat(n / 10) + [DigitChar(n % 10)]
  }

  /** Conversely, every token of the grammar is accepted, with the value
      `int` gives it: the digits' value, negated after `-`. Leading zeros
      (`"08"`, `"00"`) and a `+` sign are accepted. */
  lemma ParseIntAccepts(t: string)
    ensures t != [] && AllDigits(t) ==> ParseInt(t) == Some(DigitsValue(t))
    ensures |t| >= 2 && t[0] == '+' && AllDigits(t[1..]) ==> ParseInt(t) == Some(DigitsValue(t[1..]))
    ensures |t| >= 2 && t[0] == '-' && AllDigits(t[1..]) ==> ParseInt(t) == Some(-(DigitsValue(t[1..]) as int))
  {
    if t != [] && AllDigits(t) {
      assert IsDigit(t[0]);
    } else if |t| >= 2 && (t[0] == '+' || t[0] == '-') && AllDigits(t[1..]) {
      assert t[1..] != [];
    }
  }

  /** Python's `str(n)` for an integer: a minus sign for negatives, then the
      digits of its magnitude. */
  function FormatInt(n: int): string
  {
    if n < 0 then "-" + FormatNat(-n) else FormatNat(n)
  }

  lemma {:induction false} DigitsRoundTrip(n: nat)
    ensures DigitsValue(FormatNat(n)) == n
  {
    if n >= 10 {
      var ds := FormatNat(n);
      assert ds[..|ds| - 1] == FormatNat(n / 10);
      DigitsRoundTrip(n / 10);
    }
  }

  /** Parsing what `str` prints gives the integer back, for every integer. */
  lemma ParseFormat(n: int)
    ensures ParseInt(FormatInt(n)) == Some(n)
  {
    var t := FormatInt(n);
    if n < 0 {
      var ds := FormatNat(-n);
      assert t == ['-'] + ds && t[0] == '-' && t[1..] == ds;
      DigitsRoundTrip(-n);
      var v: int := DigitsValue(ds);
      assert ParseInt(t) == Some(-v);
    } else {
      var ds := FormatNat(n);
      assert t == ds && IsDigit(t[0]);
      DigitsRoundTrip(n);
      assert ParseInt(t) == Some(DigitsValue(ds));
    }
  }

  /** A token that parses holds no colon, so it survives a split on `:`. */
  lemma ParsedHasNoColon(t: string)
    requires ParseInt(t).Some?
    ensures ':' !in t
  {
  }

  /** The text splits on `:` into exactly three fields that `int` accepts. */
  predicate WellFormedDuration(text: string)
  {
    var fields := Split(text, ':');
    |fields| == 3 && ParseInt(fields[0]).Some? && ParseInt(fields[1]).Some? && ParseInt(fields[2]).Some?
  }

  /** `time_to_hours`: split on `:`, demand exactly three integer fields and
      return `h + m/60 + s/3600`; every other outcome is 0.0. */
  function TimeToHours(text: string): (hours: real)
    ensures !WellFormedDuration(text) ==> hours == 0.0
  {
    var fields := Split(text, ':');
    if |fields| != 3 then 0.0
    else
      match (ParseInt(fields[0]), ParseInt(fields[1]), ParseInt(fields[2]))
      case (Some(h), Some(m), Some(s)) => h as real + m as real / 60.0 + s as real / 3600.0
      case _ => 0.0
  }

  /** Three integer fields joined by colons give exactly their total number of
      seconds divided by 3600; the hour field is not bounded to 24. */
  lemma ThreeFields(t0: string, t1: string, t2: string, h: int, m: int, s: int)
    requires ParseInt(t0) == Some(h) && ParseInt(t1) == Some(m) && ParseInt(t2) == Some(s)
    ensures TimeToHours(t0 + ":" + t1 + ":" + t2) == (3600 * h + 60 * m + s) as real / 3600.0
  {
    ParsedHasNoColon(t0);
    ParsedHasNoColon(t1);
    ParsedHasNoColon(t2);
    SplitNoSeparator(t2, ':');
    SplitAfterPiece(t1, ':', t2);
    SplitAfterPiece(t0, ':', t1 + ":" + t2);
    assert t0 + ":" + t1 + ":" + t2 == t0 + [':'] + (t1 + [':'] + t2);
  }

  /** The same for the text Python would print for any three integers. */
  lemma FormattedDuration(h: int, m: int, s: int)
    ensures TimeToHours(FormatInt(h) + ":" + FormatInt(m) + ":" + FormatInt(s))
         == (3600 * h + 60 * m + s) as real / 3600.0
  {
    ParseFormat(h);
    ParseFormat(m);
    ParseFormat(s);
    ThreeFields(FormatInt(h), FormatInt(m), FormatInt(s), h, m, s);
  }

  /** Three fields written as plain digit strings, zero-padded or not (such
      as `"08"` or `"00"`), give their total number of seconds over 3600. */
  lemma DigitFields(d0: string, d1: string, d2: string)
    requires d0 != [] && AllDigits(d0) && d1 != [] && AllDigits(d1) && d2 != [] && AllDigits(d2)
    ensures TimeToHours(d0 + ":" + d1 + ":" + d2)
         == (3600 * DigitsValue(d0) + 60 * DigitsValue(d1) + DigitsValue(d2)) as real / 3600.0
  {
    ParseIntAccepts(d0);
    ParseIntAccepts(d1);
    ParseIntAccepts(d2);
    ThreeFields(d0, d1, d2, DigitsValue(d0), DigitsValue(d1), DigitsValue(d2));
  }

  /** A text with any number of fields other than three gives 0.0. */
  lemma WrongFieldCount(parts: seq<string>)
    requires |parts| >= 1 && |parts| != 3
    requires forall i :: 0 <= i < |parts| ==> ':' !in parts[i]
    ensures TimeToHours(Join(parts, ':')) == 0.0
  {
    SplitJoin(parts, ':');
  }

  /** Three fields of which one is not an integer give 0.0. */
  lemma NonIntegerField(t0: string, t1: string, t2: string)
    requires ':' !in t0 && ':' !in t1 && ':' !in t2
    requires ParseInt(t0).None? || ParseInt(t1).None? || ParseInt(t2).None?
    ensures TimeToHours(t0 + ":" + t1 + ":" + t2) == 0.0
  {
    var parts := [t0, t1, t2];
    SplitJoin(parts, ':');
    assert parts[1..] == [t1, t2] && [t1, t2][1..] == [t2];
    assert Join([t1, t2], ':') == t1 + [':'] + t2;
    assert Join(parts, ':') == t0 + ":" + t1 + ":" + t2;
  }

  /** Conversely, a non-zero result comes only from a text that is three
      integer fields joined by colons. With WrongFieldCount and
      NonIntegerField this covers every text, since every text is the join
      of its own split (JoinSplit). */
  lemma NonZeroMeansThreeFields(text: string)
    requires TimeToHours(text) != 0.0
    ensures |Split(text, ':')| == 3
    ensures text == Split(text, ':')[0] + ":" + Split(text, ':')[1] + ":" + Split(text, ':')[2]
    ensures forall i :: 0 <= i < 3 ==> ParseInt(Split(text, ':')[i]).Some?
  {
    var parts := Split(text, ':');
    JoinSplit(text, ':');
    assert parts[1..] == [parts[1], parts[2]] && parts[1..][1..] == [parts[2]];
    assert Join([parts[1], parts[2]], ':') == parts[1] + [':'] + parts[2];
    assert Join(parts, ':') == parts[0] + [':'] + (parts[1] + [':'] + parts[2]);
  }

  /** A text without a minus sign never gives negative hours. */
  lemma UnsignedIsNonNegative(text: string)
    requires '-' !in text
    ensures TimeToHours(text) >= 0.0
  {
    var fields := Split(text, ':');
    if |fields| == 3 {
      forall i | 0 <= i < 3 && |fields[i]| >= 1
        ensures fields[i][0] != '-'
      {
        assert fields[i][0] in fields[i];
        SplitCharacters(text, ':', i, fields[i][0]);
      }
    }
  }

  lemma OneDigit(a: char)
    requires IsDigit(a)
    ensures ParseInt([a]) == Some(DigitValue(a))
  {
    assert [a][..0] == [];
    assert AllDigits([a]) && !(a == '+' || a == '-');
    assert DigitsValue([a]) == DigitValue(a);
  }

  lemma TwoDigits(a: char, b: char)
    requires IsDigit(a) && IsDigit(b)
    ensures ParseInt([a, b]) == Some(10 * DigitValue(a) + DigitValue(b))
  {
    var t := [a, b];
    assert t[..1] == [a] && [a][..0] == [];
    assert AllDigits(t) && !(t[0] == '+' || t[0] == '-');
    assert DigitsValue(t) == 10 * DigitsValue([a]) + DigitValue(b);
  }

  lemma NegativeDigit(a: char)
    requires IsDigit(a)
    ensures ParseInt(['-', a]) == Some(-(DigitValue(a) as int))
  {
    assert ['-', a][1..] == [a];
    assert [a][..0] == [];
    assert AllDigits([a]) && DigitsValue([a]) == DigitValue(a);
  }

  /** "2:30:00" is two and a half hours. */
  lemma ExampleTwoThirty()
    ensures TimeToHours("2:30:00") == 2.5
  {
    OneDigit('2');
    TwoDigits('3', '0');
    TwoDigits('0', '0');
    ThreeFields("2", "30", "00", 2, 30, 0);
    assert "2:30:00" == "2" + ":" + "30" + ":" + "00";
  }

  /** "0:00:00" is no time at all, a well-formed zero. */
  lemma ExampleZero()
    ensures TimeToHours("0:00:00") == 0.0
  {
    OneDigit('0');
    TwoDigits('0', '0');
    ThreeFields("0", "00", "00", 0, 0, 0);
    assert "0:00:00" == "0" + ":" + "00" + ":" + "00";
  }

  /** Hours past 24 are kept as they are. */
  lemma ExampleTwentyFive()
    ensures TimeToHours("25:00:00") == 25.0
  {
    TwoDigits('2', '5');
    TwoDigits('0', '0');
    ThreeFields("25", "00", "00", 25, 0, 0);
    assert "25:00:00" == "25" + ":" + "00" + ":" + "00";
  }

  /** A sign on a field is honoured, as `int` honours it. */
  lemma ExampleSignedHour()
    ensures TimeToHours("-1:30:00") == -0.5
  {
    NegativeDigit('1');
    TwoDigits('3', '0');
    TwoDigits('0', '0');
    ThreeFields("-1", "30", "00", -1, 30, 0);
    assert "-1:30:00" == "-1" + ":" + "30" + ":" + "00";
  }

  /** A whole number of hours below ten, written "D:00:00". */
  lemma WholeHours(d: char)
    requires IsDigit(d)
    ensures TimeToHours([d] + ":00:00") == DigitValue(d) as real
  {
    OneDigit(d);
    TwoDigits('0', '0');
    ThreeFields([d], "00", "00", DigitValue(d), 0, 0);
    assert [d] + ":00:00" == [d] + ":" + "00" + ":" + "00";
  }

  /** The empty text is one empty field. */
  lemma MalformedEmpty()
    ensures TimeToHours("") == 0.0
  {
    assert Split("", ':') == [""];
  }

  /** A text without colons is one field. */
  lemma MalformedNoColon()
    ensures TimeToHours("abc") == 0.0
  {
    SplitNoSeparator("abc", ':');
  }

  /** Two fields are too few. */
  lemma MalformedTwoFields()
    ensures TimeToHours("1:2") == 0.0
  {
    WrongFieldCount(["1", "2"]);
    assert ["1", "2"][1..] == ["2"];
    assert Join(["1", "2"], ':') == "1:2";
  }

  /** Four fields are too many. */
  lemma MalformedFourFields()
    ensures TimeToHours("1:2:3:4") == 0.0
  {
    var parts := ["1", "2", "3", "4"];
    WrongFieldCount(parts);
    assert parts[1..] == ["2", "3", "4"] && parts[1..][1..] == ["3", "4"] && parts[1..][1..][1..] == ["4"];
    assert Join(parts, ':') == "1:2:3:4";
  }

  /** A lone sign is not an integer. */
  lemma MalformedLoneSign()
    ensures TimeToHours("-:30:00") == 0.0
  {
    NonIntegerField("-", "30", "00");
    assert "-:30:00" == "-" + ":" + "30" + ":" + "00";
  }

  /** An empty middle field is not an integer. */
  lemma MalformedEmptyField()
    ensures TimeToHours("1::3") == 0.0
  {
    assert ParseInt("").None?;
    NonIntegerField("1", "", "3");
    assert "1::3" == "1" + ":" + "" + ":" + "3";
  }
}
