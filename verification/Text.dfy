/** The string operations of Python that the modelled code relies on. */
module Text {
  import opened Options

  // ---------- Decimal numbers ----------

  function Digit(d: nat): (c: char)
    requires d < 10
    ensures IsDigit(c) && DigitValue(c) == d
  {
    (d + 48) as char
  }

  predicate IsDigit(c: char) {
    48 <= c as int <= 57
  }

  function DigitValue(c: char): nat
    requires IsDigit(c)
  {
    c as int - 48
  }

  /** `str(n)` */
  function ShowNat(n: nat): (s: string)
    ensures s != [] && forall i :: 0 <= i < |s| ==> IsDigit(s[i])
  {
    if n < 10 then [Digit(n)] else ShowNat(n / 10) + [Digit(n % 10)]
  }

  function Show(n: int): string {
    if n < 0 then "-" + ShowNat(-n) else ShowNat(n)
  }

  function ReadNat(s: string): (n: Option<nat>)
    ensures n.Some? <==> s != [] && forall i :: 0 <= i < |s| ==> IsDigit(s[i])
  {
    if s == [] then None
    else
      var last := s[|s|-1];
      if !IsDigit(last) then None
      else if |s| == 1 then Some(DigitValue(last))
      else
        match ReadNat(s[..|s|-1])
        case None => None
        case Some(high) => Some(high * 10 + DigitValue(last))
  }

  /** `int(s)`, for text without spaces and underscores. */
  function ReadInt(s: string): Option<int> {
    if s != [] && s[0] == '-' then
      match ReadNat(s[1..]) case None => None case Some(n) => Some(0 - n as int)
    else
      match ReadNat(s) case None => None case Some(n) => Some(n)
  }

  lemma {:induction false} ReadShowNat(n: nat)
    ensures ReadNat(ShowNat(n)) == Some(n)
  {
    if n >= 10 {
      ReadShowNat(n / 10);
      assert ShowNat(n)[..|ShowNat(n)|-1] == ShowNat(n / 10);
    }
  }

  /** Printing a number and reading it back. */
  lemma ReadShow(n: int)
    ensures ReadInt(Show(n)) == Some(n)
  {
    if n < 0 {
      ReadShowNat(-n);
      assert Show(n)[1..] == ShowNat(-n);
    } else {
      ReadShowNat(n);
      assert IsDigit(ShowNat(n)[0]);
    }
  }

  // ---------- Strip ----------

  predicate IsSpace(c: char) {
    var n := c as int;
    9 <= n <= 13 || 28 <= n <= 32 || n == 0x85 || n == 0xA0 || n == 0x1680 || 0x2000 <= n <= 0x200A
    || n == 0x2028 || n == 0x2029 || n == 0x202F || n == 0x205F || n == 0x3000
  }

  function StripLeft(s: string): string {
    if s != [] && IsSpace(s[0]) then StripLeft(s[1..]) else s
  }

  function StripRight(s: string): string {
    if s != [] && IsSpace(s[|s|-1]) then StripRight(s[..|s|-1]) else s
  }

  function Strip(s: string): string {
    StripRight(StripLeft(s))
  }

  predicate Trimmed(s: string) {
    s != [] ==> !IsSpace(s[0]) && !IsSpace(s[|s|-1])
  }

  lemma {:induction false} StripLeftTrims(s: string)
    ensures var r := StripLeft(s); (r != [] ==> !IsSpace(r[0])) && |r| <= |s| && r == s[|s|-|r|..]
  {
    if s != [] && IsSpace(s[0]) {
      StripLeftTrims(s[1..]);
    }
  }

  lemma {:induction false} StripRightTrims(s: string)
    ensures var r := StripRight(s); (r != [] ==> !IsSpace(r[|r|-1])) && r <= s
  {
    if s != [] && IsSpace(s[|s|-1]) {
      StripRightTrims(s[..|s|-1]);
    }
  }

  lemma StripTrims(s: string)
    ensures Trimmed(Strip(s))
    ensures forall c :: c in Strip(s) ==> c in s
  {
    StripLeftTrims(s);
    StripRightTrims(StripLeft(s));
  }

  lemma StripOfTrimmed(s: string)
    requires Trimmed(s)
    ensures Strip(s) == s
  {
  }

  lemma {:induction false} StripRightKeepsFirst(s: string)
    requires s != [] && !IsSpace(s[0])
    ensures StripRight(s) != []
  {
    if IsSpace(s[|s|-1]) {
      StripRightKeepsFirst(s[..|s|-1]);
    }
  }

  lemma {:induction false} StripLeftBlank(s: string)
    requires StripLeft(s) == ""
    ensures forall c :: c in s ==> IsSpace(c)
  {
    if s != [] {
      StripLeftBlank(s[1..]);
      assert s == [s[0]] + s[1..];
    }
  }

  /** Only white space strips to nothing. */
  lemma StripToNothing(s: string)
    requires Strip(s) == ""
    ensures forall c :: c in s ==> IsSpace(c)
  {
    StripLeftTrims(s);
    if StripLeft(s) != "" {
      StripRightKeepsFirst(StripLeft(s));
    }
    StripLeftBlank(s);
  }

  /** `s.lower()`, for ASCII letters. */
  function Lower(s: string): string {
    if s == [] then [] else [if 'A' <= s[0] <= 'Z' then (s[0] as int + 32) as char else s[0]] + Lower(s[1..])
  }

  // ---------- Split and join ----------

  function Split(s: string, sep: char): (parts: seq<string>)
    ensures parts != []
  {
    if s == [] then [[]]
    else
      var rest := Split(s[1..], sep);
      if s[0] == sep then [[]] + rest else [[s[0]] + rest[0]] + rest[1..]
  }

  function Join(parts: seq<string>, sep: char): string {
    if parts == [] then [] else if |parts| == 1 then parts[0] else parts[0] + [sep] + Join(parts[1..], sep)
  }

  lemma {:induction false} SplitFirstPart(part: string, sep: char, rest: string)
    requires sep !in part
    ensures Split(part + [sep] + rest, sep) == [part] + Split(rest, sep)
    ensures Split(part, sep) == [part]
  {
    if part == [] {
      assert part + [sep] + rest == [sep] + rest;
    } else {
      SplitFirstPart(part[1..], sep, rest);
      assert (part + [sep] + rest)[1..] == part[1..] + [sep] + rest;
      assert [part[0]] + part[1..] == part;
    }
  }

  lemma {:induction false} SplitJoin(parts: seq<string>, sep: char)
    requires parts != [] && forall i :: 0 <= i < |parts| ==> sep !in parts[i]
    ensures Split(Join(parts, sep), sep) == parts
  {
    if |parts| == 1 {
      SplitFirstPart(parts[0], sep, []);
    } else {
      SplitJoin(parts[1..], sep);
      SplitFirstPart(parts[0], sep, Join(parts[1..], sep));
    }
  }

  lemma {:induction false} SplitHasNoSep(s: string, sep: char)
    ensures forall i :: 0 <= i < |Split(s, sep)| ==> sep !in Split(s, sep)[i]
  {
    if s != [] {
      SplitHasNoSep(s[1..], sep);
    }
  }

  /** `s.rsplit(sep, 1)[-1]` */
  function LastPart(s: string, sep: char): string {
    var parts := Split(s, sep);
    parts[|parts|-1]
  }

  lemma {:induction false} LastPartOf(front: string, sep: char, last: string)
    requires sep !in last
    ensures |Split(front + [sep] + last, sep)| >= 2 && LastPart(front + [sep] + last, sep) == last
  {
    if front == [] {
      assert front + [sep] + last == [sep] + last;
      SplitFirstPart(last, sep, []);
    } else {
      LastPartOf(front[1..], sep, last);
      assert (front + [sep] + last)[1..] == front[1..] + [sep] + last;
    }
  }
}
