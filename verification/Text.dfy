/**
 The string operations of the source language that the model relies on: split, join,
 trim, and printing and reading numbers in base 10 and 16.
 */
module Text {
  import opened Radix

  // ---------- split and join ----------

  /** Splits left to right at every non-overlapping occurrence of `sep`. */
  function Split(s: string, sep: string): (parts: seq<string>)
    requires |sep| >= 1
    ensures |parts| >= 1
  {
    if |s| < |sep| then [s]
    else if s[..|sep|] == sep then [""] + Split(s[|sep|..], sep)
    else
      var rest := Split(s[1..], sep);
      [[s[0]] + rest[0]] + rest[1..]
  }

  function Join(parts: seq<string>, sep: string): string
  {
    if parts == [] then ""
    else if |parts| == 1 then parts[0]
    else parts[0] + sep + Join(parts[1..], sep)
  }

  /** `sep` does not begin anywhere inside `s`, not even running past its end. */
  ghost predicate StartsNowhere(s: string, sep: string)
  {
    forall i :: 0 <= i < |s| ==> !(sep <= (s + sep)[i..])
  }

  ghost predicate OccursNowhere(s: string, sep: string)
  {
    forall i :: 0 <= i <= |s| ==> !(sep <= s[i..])
  }

  lemma {:induction false} SplitFirst(a: string, sep: string, b: string)
    requires |sep| >= 1 && StartsNowhere(a, sep)
    ensures Split(a + sep + b, sep) == [a] + Split(b, sep)
  {
    var s := a + sep + b;
    if a == "" {
      assert s[..|sep|] == sep && s[|sep|..] == b;
    } else {
      assert !(sep <= (a + sep)[0..]);
      assert s[..|sep|] == (a + sep)[..|sep|];
      assert s[1..] == a[1..] + sep + b;
      forall i | 0 <= i < |a[1..]| ensures !(sep <= (a[1..] + sep)[i..]) {
        assert (a[1..] + sep)[i..] == (a + sep)[i + 1..];
      }
      SplitFirst(a[1..], sep, b);
      assert [a[0]] + a[1..] == a;
    }
  }

  lemma {:induction false} SplitWhole(s: string, sep: string)
    requires |sep| >= 1 && OccursNowhere(s, sep)
    ensures Split(s, sep) == [s]
  {
    if |s| >= |sep| {
      assert !(sep <= s[0..]);
      forall i | 0 <= i <= |s[1..]| ensures !(sep <= s[1..][i..]) {
        assert s[1..][i..] == s[i + 1..];
      }
      SplitWhole(s[1..], sep);
      assert [s[0]] + s[1..] == s;
    }
  }

  lemma StartsNowhereChar(s: string, c: char)
    requires c !in s
    ensures StartsNowhere(s, [c]) && OccursNowhere(s, [c])
  {
    forall i | 0 <= i < |s| ensures !([c] <= (s + [c])[i..]) {
      assert (s + [c])[i..][0] == s[i];
    }
    forall i | 0 <= i <= |s| ensures !([c] <= s[i..]) {
      if i < |s| { assert s[i..][0] == s[i]; }
    }
  }

  /** Splitting undoes joining when no part contains the separator. */
  lemma {:induction false} SplitJoin(parts: seq<string>, c: char)
    requires |parts| >= 1
    requires forall i :: 0 <= i < |parts| ==> c !in parts[i]
    ensures Split(Join(parts, [c]), [c]) == parts
  {
    StartsNowhereChar(parts[0], c);
    if |parts| == 1 {
      SplitWhole(parts[0], [c]);
    } else {
      SplitFirst(parts[0], [c], Join(parts[1..], [c]));
      SplitJoin(parts[1..], c);
      assert [parts[0]] + parts[1..] == parts;
    }
  }

  lemma JoinPrepend(c: char, parts: seq<string>, sep: string)
    requires |parts| >= 1
    ensures Join([[c] + parts[0]] + parts[1..], sep) == [c] + Join(parts, sep)
  {
    var longer := [[c] + parts[0]] + parts[1..];
    assert longer[1..] == parts[1..];
    if |parts| > 1 {
      var rest := sep + Join(parts[1..], sep);
      assert [c] + parts[0] + rest == [c] + (parts[0] + rest);
      assert Join(longer, sep) == [c] + parts[0] + sep + Join(parts[1..], sep);
      assert Join(parts, sep) == parts[0] + rest;
    }
  }

  /** Joining undoes splitting, always. */
  lemma {:induction false} JoinSplit(s: string, sep: string)
    requires |sep| >= 1
    ensures Join(Split(s, sep), sep) == s
  {
    if |s| < |sep| {
    } else if s[..|sep|] == sep {
      JoinSplit(s[|sep|..], sep);
      assert ([""] + Split(s[|sep|..], sep))[1..] == Split(s[|sep|..], sep);
      assert s == sep + s[|sep|..];
    } else {
      JoinSplit(s[1..], sep);
      JoinPrepend(s[0], Split(s[1..], sep), sep);
      assert s == [s[0]] + s[1..];
    }
  }

  lemma {:induction false} SplitParts(s: string, c: char)
    ensures forall i :: 0 <= i < |Split(s, [c])| ==> c !in Split(s, [c])[i]
  {
    if s != "" {
      SplitParts(s[1..], c);
      if s[0] == c {
        assert s[..1] == [c];
      } else {
        assert s[..1] != [c];
      }
    }
  }

  /** Splitting distributes over a separator in the middle. */
  lemma {:induction false} SplitAt(a: string, c: char, b: string)
    ensures Split(a + [c] + b, [c]) == Split(a, [c]) + Split(b, [c])
  {
    var s := a + [c] + b;
    if a == "" {
      assert s[..1] == [c] && s[1..] == b;
    } else {
      assert s[1..] == a[1..] + [c] + b;
      SplitAt(a[1..], c, b);
      assert s[..1] == [a[0]] && a[..1] == [a[0]];
      var ra, rb := Split(a[1..], [c]), Split(b, [c]);
      if a[0] == c {
        assert [""] + (ra + rb) == [""] + ra + rb;
      } else {
        assert (ra + rb)[1..] == ra[1..] + rb;
      }
    }
  }

  lemma {:induction false} JoinConcat(xs: seq<string>, ys: seq<string>, sep: string)
    requires |xs| >= 1 && |ys| >= 1
    ensures Join(xs + ys, sep) == Join(xs, sep) + sep + Join(ys, sep)
  {
    if |xs| == 1 {
      assert (xs + ys)[1..] == ys;
    } else {
      assert (xs + ys)[1..] == xs[1..] + ys;
      JoinConcat(xs[1..], ys, sep);
    }
  }

  /** Characters of a joined string come from its parts or its separator. */
  lemma {:induction false} JoinChars(parts: seq<string>, sep: string, c: char)
    requires c in Join(parts, sep)
    ensures c in sep || exists i :: 0 <= i < |parts| && c in parts[i]
  {
    if |parts| > 1 && c !in parts[0] && c !in sep {
      JoinChars(parts[1..], sep, c);
      var i :| 0 <= i < |parts[1..]| && c in parts[1..][i];
      assert c in parts[i + 1];
    }
  }

  /** Splitting invents no characters. */
  lemma {:induction false} SplitChars(s: string, sep: string, i: nat, c: char)
    requires |sep| >= 1 && i < |Split(s, sep)| && c in Split(s, sep)[i]
    ensures c in s
  {
    if |s| < |sep| {
    } else if s[..|sep|] == sep {
      if i > 0 { SplitChars(s[|sep|..], sep, i - 1, c); }
    } else if i > 0 || c != s[0] {
      SplitChars(s[1..], sep, i, c);
    }
  }

  // ---------- trim ----------

  /** The white space and line terminators that `trim` removes. */
  predicate IsSpace(c: char)
  {
    c == ' ' || '\U{0009}' <= c <= '\U{000D}' || c == '\U{00A0}' || c == '\U{1680}' ||
    '\U{2000}' <= c <= '\U{200A}' || c == '\U{2028}' || c == '\U{2029}' || c == '\U{202F}' ||
    c == '\U{205F}' || c == '\U{3000}' || c == '\U{FEFF}'
  }

  function Trim(s: string): (t: string)
    ensures Trimmed(t)
  {
    if s == "" then s
    else if IsSpace(s[0]) then Trim(s[1..])
    else if IsSpace(s[|s| - 1]) then Trim(s[..|s| - 1])
    else s
  }

  predicate Trimmed(s: string)
  {
    s == "" || (!IsSpace(s[0]) && !IsSpace(s[|s| - 1]))
  }

  function Lower(c: char): char
  {
    if 'A' <= c <= 'Z' then c + ' '
    else if c == '\U{212A}' then 'k' // the Kelvin sign is the one non-ASCII letter lowered to a plain one
    else c
  }

  function ToLower(s: string): (r: string)
    ensures |r| == |s|
  {
    seq(|s|, i requires 0 <= i < |s| => Lower(s[i]))
  }

  /** The blanks of the source language, by code point. */
  lemma SpacesAre(c: char)
    ensures IsSpace(c) <==>
            0x9 <= c as int <= 0xd || 0x2000 <= c as int <= 0x200a ||
            c as int in {0x20, 0xa0, 0x1680, 0x2028, 0x2029, 0x202f, 0x205f, 0x3000, 0xfeff}
  {
  }

  ghost predicate AllSpaces(s: string) { forall i :: 0 <= i < |s| ==> IsSpace(s[i]) }

  /** Trimming takes blanks off both ends, and everything it takes off is a blank. */
  lemma {:induction false} TrimTakes(s: string) returns (before: string, after: string)
    ensures s == before + Trim(s) + after && AllSpaces(before) && AllSpaces(after)
    decreases |s|
  {
    before, after := "", "";
    if s != "" && IsSpace(s[0]) {
      before, after := TrimTakes(s[1..]);
      before := [s[0]] + before;
    } else if s != "" && IsSpace(s[|s| - 1]) {
      before, after := TrimTakes(s[..|s| - 1]);
      after := after + [s[|s| - 1]];
    }
  }

  /** Lower case, for the letters that any text accepted here can hold. */
  lemma LowerIs(s: string, i: nat)
    requires i < |s| && s[i] as int < 0x80
    ensures |ToLower(s)| == |s|
    ensures ToLower(s)[i] as int == if 'A' <= s[i] <= 'Z' then s[i] as int + 32 else s[i] as int
  {
  }

  // ---------- numbers ----------

  const DIGITS: string := "0123456789abcdef"

  predicate IsDigit(b: nat, c: char)
    requires b <= 16
  {
    ('0' <= c <= '9' && (c as int - '0' as int) < b) ||
    ('a' <= c <= 'f' && (c as int - 'a' as int + 10) < b)
  }

  function DigitValue(c: char): nat
  {
    if '0' <= c <= '9' then c as int - '0' as int
    else if 'a' <= c <= 'f' then c as int - 'a' as int + 10
    else 0
  }

  predicate AllDigits(b: nat, s: string)
    requires b <= 16
  {
    forall i :: 0 <= i < |s| ==> IsDigit(b, s[i])
  }

  function Numerals(s: string): (ds: seq<nat>)
    ensures |ds| == |s|
  {
    seq(|s|, i requires 0 <= i < |s| => DigitValue(s[i]))
  }

  function Render(ds: seq<nat>): (s: string)
    requires AreDigits(16, ds)
    ensures |s| == |ds|
  {
    seq(|ds|, i requires 0 <= i < |ds| => DIGITS[ds[i]])
  }

  function Parse(b: nat, s: string): nat { Value(b, Numerals(s)) }

  function Print(b: nat, v: nat): string
    requires 2 <= b <= 16
  {
    Render(MinDigits(b, v))
  }

  function Dec(v: nat): string { Print(10, v) }

  function Hex(v: nat): string { Print(16, v) }

  lemma DigitRoundTrip(b: nat, d: nat)
    requires d < b <= 16
    ensures IsDigit(b, DIGITS[d]) && DigitValue(DIGITS[d]) == d
  {
    assert DIGITS == ['0', '1', '2', '3', '4', '5', '6', '7', '8', '9', 'a', 'b', 'c', 'd', 'e', 'f'];
  }

  lemma CharRoundTrip(b: nat, c: char)
    requires b <= 16 && IsDigit(b, c)
    ensures DigitValue(c) < b && DIGITS[DigitValue(c)] == c
  {
    var d := DigitValue(c);
    DigitRoundTrip(b, d);
    var e := DIGITS[d];
    if '0' <= c <= '9' {
      assert e as int == c as int;
    } else {
      assert e as int == c as int;
    }
  }

  lemma RenderRoundTrip(b: nat, ds: seq<nat>)
    requires b <= 16 && AreDigits(b, ds)
    ensures AllDigits(b, Render(ds)) && Numerals(Render(ds)) == ds
  {
    forall i | 0 <= i < |ds| ensures IsDigit(b, Render(ds)[i]) && Numerals(Render(ds))[i] == ds[i] {
      DigitRoundTrip(b, ds[i]);
    }
  }

  lemma NumeralsRoundTrip(b: nat, s: string)
    requires b <= 16 && AllDigits(b, s)
    ensures AreDigits(b, Numerals(s)) && Render(Numerals(s)) == s
  {
    forall i | 0 <= i < |s| ensures Numerals(s)[i] < b && DIGITS[Numerals(s)[i]] == s[i] {
      CharRoundTrip(b, s[i]);
    }
  }

  /** Reading a printed number gives it back; the text is digits only and never empty. */
  lemma ParsePrint(b: nat, v: nat)
    requires 2 <= b <= 16
    ensures Parse(b, Print(b, v)) == v
    ensures AllDigits(b, Print(b, v)) && |Print(b, v)| >= 1
    ensures |Print(b, v)| > 1 ==> Print(b, v)[0] != '0'
  {
    RenderRoundTrip(b, MinDigits(b, v));
    ValueOfMinDigits(b, v);
    if |Print(b, v)| > 1 {
      DigitRoundTrip(b, MinDigits(b, v)[0]);
    }
  }

  /** Drops leading zeros but keeps one digit. */
  function StripZeros(s: string): string
  {
    if s == "" then "0" else if s[0] == '0' then StripZeros(s[1..]) else s
  }

  /** Stripping leading zeros is exactly re-printing the number in shortest form. */
  lemma {:induction false} StripIsPrint(b: nat, s: string)
    requires 2 <= b <= 16 && AllDigits(b, s)
    ensures StripZeros(s) == Print(b, Parse(b, s))
  {
    if s == "" {
      assert MinDigits(b, 0) == [0];
      assert Parse(b, s) == 0;
    } else if s[0] == '0' {
      StripIsPrint(b, s[1..]);
      assert Numerals(s) == seq(1, _ => 0) + Numerals(s[1..]);
      LeadingZeros(b, 1, Numerals(s[1..]));
    } else {
      NumeralsRoundTrip(b, s);
      CharRoundTrip(b, s[0]);
      assert DIGITS[0] == '0';
      MinDigitsOfValue(b, Numerals(s));
    }
  }
}
