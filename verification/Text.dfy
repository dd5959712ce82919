/** Text operations of the source language that the FIX codec relies on:
    substring search, splitting, joining, stripping and decimal integers. */
module Text {
  import opened Optional

  // ---------------------------------------------------------------- search

  /** `pat` occurs in `s` at position `i`. */
  predicate At(s: string, pat: string, i: nat) {
    i + |pat| <= |s| && s[i..i + |pat|] == pat
  }

  predicate Contains(s: string, pat: string) {
    exists i: nat :: i <= |s| && At(s, pat, i)
  }

  /** The first occurrence of `pat` at or after `from`. */
  function Find(s: string, pat: string, from: nat): (r: Option<nat>)
    ensures r.Some? ==> from <= r.value && At(s, pat, r.value)
    decreases |s| - from
  {
    if from + |pat| > |s| then None
    else if At(s, pat, from) then Some(from)
    else Find(s, pat, from + 1)
  }

  /** No occurrence is passed over. */
  lemma {:induction false} FindFirst(s: string, pat: string, from: nat, j: nat)
    requires from <= j && At(s, pat, j)
    ensures Find(s, pat, from).Some? && Find(s, pat, from).value <= j
    decreases j - from
  {
    if !At(s, pat, from) {
      FindFirst(s, pat, from + 1, j);
    }
  }

  /** The first occurrence is the one with none before it. */
  lemma {:induction false} FindIs(s: string, pat: string, from: nat, i: nat)
    requires from <= i && At(s, pat, i)
    requires forall j: nat :: from <= j < i ==> !At(s, pat, j)
    ensures Find(s, pat, from) == Some(i)
  {
    FindFirst(s, pat, from, i);
  }

  /** A hit does not move when more text arrives behind it. */
  lemma {:induction false} FindStable(s: string, more: string, pat: string, from: nat)
    requires Find(s, pat, from).Some?
    ensures Find(s + more, pat, from) == Find(s, pat, from)
  {
    var i := Find(s, pat, from).value;
    assert (s + more)[i..i + |pat|] == s[i..i + |pat|];
    forall j: nat | from <= j < i
      ensures !At(s + more, pat, j)
    {
      if At(s + more, pat, j) {
        assert (s + more)[j..j + |pat|] == s[j..j + |pat|];
        FindFirst(s, pat, from, j);
      }
    }
    FindIs(s + more, pat, from, i);
  }

  /** A single character is found where it first occurs. */
  lemma {:induction false} FindChar(s: string, c: char, from: nat, i: nat)
    requires from <= i < |s| && s[i] == c
    requires forall j :: from <= j < i ==> s[j] != c
    ensures Find(s, [c], from) == Some(i)
  {
    assert s[i..i + 1] == [c];
    forall j: nat | from <= j < i
      ensures !At(s, [c], j)
    {
      assert s[j..j + 1][0] == s[j];
    }
    FindIs(s, [c], from, i);
  }

  // ------------------------------------------------------- split and join

  /** `sep.join(parts)` for a one-character separator. */
  function Join(parts: seq<string>, sep: char): string {
    if |parts| == 0 then ""
    else if |parts| == 1 then parts[0]
    else parts[0] + [sep] + Join(parts[1..], sep)
  }

  /** `s.split(sep)` for a one-character separator: the pieces are free of the
      separator and joining them gives the text back. */
  function Split(s: string, sep: char): (r: seq<string>)
    ensures |r| >= 1
    ensures forall k :: 0 <= k < |r| ==> sep !in r[k]
    ensures Join(r, sep) == s
  {
    if sep !in s then [s]
    else
      var i := IndexOf(s, sep);
      var rest := Split(s[i + 1..], sep);
      assert s == s[..i] + [sep] + s[i + 1..];
      [s[..i]] + rest
  }

  /** Position of the first occurrence of a character that occurs. */
  function IndexOf(s: string, c: char): (i: nat)
    requires c in s
    ensures i < |s| && s[i] == c
    ensures forall k :: 0 <= k < i ==> s[k] != c
  {
    if s[0] == c then 0
    else
      IndexOf(s[1..], c) + 1
  }

  /** The prefix before the first separator is unique. */
  lemma {:induction false} IndexOfIs(a: string, c: char, b: string)
    requires c !in a
    ensures c in a + [c] + b
    ensures IndexOf(a + [c] + b, c) == |a|
  {
    var s := a + [c] + b;
    assert s[|a|] == c;
  }

  /** Splitting undoes joining, for pieces free of the separator. */
  lemma {:induction false} SplitJoin(parts: seq<string>, sep: char)
    requires |parts| >= 1
    requires forall k :: 0 <= k < |parts| ==> sep !in parts[k]
    ensures Split(Join(parts, sep), sep) == parts
  {
    if |parts| > 1 {
      var rest := Join(parts[1..], sep);
      var s := Join(parts, sep);
      assert s == parts[0] + [sep] + rest;
      IndexOfIs(parts[0], sep, rest);
      assert s[..|parts[0]|] == parts[0];
      assert s[|parts[0]| + 1..] == rest;
      SplitJoin(parts[1..], sep);
    }
  }

  /** Joining a longer list extends the text. */
  lemma {:induction false} JoinSnoc(parts: seq<string>, last: string, sep: char)
    requires |parts| >= 1
    ensures Join(parts + [last], sep) == Join(parts, sep) + [sep] + last
  {
    if |parts| == 1 {
      assert (parts + [last])[1..] == [last];
    } else {
      JoinSnoc(parts[1..], last, sep);
      assert (parts + [last])[1..] == parts[1..] + [last];
    }
  }

  /** Every piece followed by the separator. */
  function Terminate(parts: seq<string>, sep: char): string {
    if |parts| == 0 then "" else parts[0] + [sep] + Terminate(parts[1..], sep)
  }

  lemma {:induction false} TerminateConcat(a: seq<string>, b: seq<string>, sep: char)
    ensures Terminate(a + b, sep) == Terminate(a, sep) + Terminate(b, sep)
  {
    if |a| == 0 {
      assert a + b == b;
    } else {
      TerminateConcat(a[1..], b, sep);
      assert (a + b)[1..] == a[1..] + b && (a + b)[0] == a[0];
      var head, l, r := a[0] + [sep], Terminate(a[1..], sep), Terminate(b, sep);
      assert Terminate(a + b, sep) == head + Terminate(a[1..] + b, sep);
      assert Terminate(a, sep) == head + l;
      hide Terminate;
      assert head + (l + r) == head + l + r;
    }
  }

  lemma {:induction false} JoinTerminate(parts: seq<string>, sep: char)
    requires |parts| >= 1
    ensures Join(parts, sep) + [sep] == Terminate(parts, sep)
  {
    if |parts| > 1 {
      JoinTerminate(parts[1..], sep);
    }
  }

  /** `s.replace(a, b)` for single characters. */
  function Replace(s: string, a: char, b: char): (r: string)
    ensures |r| == |s|
    ensures forall i :: 0 <= i < |s| ==> r[i] == if s[i] == a then b else s[i]
  {
    if |s| == 0 then "" else [if s[0] == a then b else s[0]] + Replace(s[1..], a, b)
  }

  lemma {:induction false} ReplaceConcat(s: string, t: string, a: char, b: char)
    ensures Replace(s + t, a, b) == Replace(s, a, b) + Replace(t, a, b)
  {
    hide Replace;
    var l, r := Replace(s + t, a, b), Replace(s, a, b) + Replace(t, a, b);
    forall i | 0 <= i < |s + t|
      ensures l[i] == r[i]
    {
    }
  }

  lemma {:induction false} ReplaceNone(s: string, a: char, b: char)
    requires a !in s
    ensures Replace(s, a, b) == s
  {
    hide Replace;
  }

  // ----------------------------------------------------------------- strip

  /** The ASCII white space that stripping and integer parsing ignore. */
  predicate IsSpace(c: char) {
    9 <= c as int <= 13 || 28 <= c as int <= 32
  }

  function StripLeft(s: string): (r: string)
    ensures |s| > 0 && !IsSpace(s[0]) ==> r == s
    ensures forall c :: c in r ==> c in s
  {
    if |s| > 0 && IsSpace(s[0]) then StripLeft(s[1..]) else s
  }

  function StripRight(s: string): (r: string)
    ensures |s| > 0 && !IsSpace(s[|s| - 1]) ==> r == s
    ensures forall c :: c in r ==> c in s
  {
    if |s| > 0 && IsSpace(s[|s| - 1]) then StripRight(s[..|s| - 1]) else s
  }

  function Strip(s: string): (r: string)
    ensures forall c :: c in r ==> c in s
  {
    StripRight(StripLeft(s))
  }

  // -------------------------------------------------------------- integers

  predicate IsDigit(c: char) { '0' <= c <= '9' }

  function DigitChar(d: nat): (c: char)
    requires d < 10
    ensures IsDigit(c) && c as int - '0' as int == d
  {
    ('0' as int + d) as char
  }

  /** `str(n)` for a natural number. */
  function NatText(n: nat): (s: string)
    ensures |s| >= 1 && forall i :: 0 <= i < |s| ==> IsDigit(s[i])
  {
    if n < 10 then [DigitChar(n)] else NatText(n / 10) + [DigitChar(n % 10)]
  }

  /** `str(n)`. */
  function IntText(n: int): (s: string)
    ensures |s| >= 1
    ensures forall i :: 0 <= i < |s| ==> IsDigit(s[i]) || s[i] == '-'
  {
    if n < 0 then "-" + NatText(-n) else NatText(n)
  }

  /** `f"{n:03d}"` for a number below 1000. */
  function Pad3(n: nat): (s: string)
    requires n < 1000
    ensures |s| == 3 && forall i :: 0 <= i < 3 ==> IsDigit(s[i])
  {
    [DigitChar(n / 100), DigitChar(n / 10 % 10), DigitChar(n % 10)]
  }

  /** Decimal digits, single underscores allowed between two of them. */
  function ParseNat(s: string): (r: Option<nat>) {
    if |s| == 0 || !IsDigit(s[|s| - 1]) then None
    else
      var d := s[|s| - 1] as int - '0' as int;
      if |s| == 1 then Some(d)
      else
        var front := if s[|s| - 2] == '_' then s[..|s| - 2] else s[..|s| - 1];
        var v := ParseNat(front);
        if v.None? then None else Some(10 * v.value + d)
  }

  /** `int(s)`, with None for a ValueError. */
  function ParseInt(s: string): (r: Option<int>) {
    var t := Strip(s);
    if |t| > 0 && t[0] == '-' then
      var v := ParseNat(t[1..]);
      if v.None? then None else Some(0 - v.value as int)
    else
      var v := ParseNat(if |t| > 0 && t[0] == '+' then t[1..] else t);
      if v.None? then None else Some(v.value)
  }

  /** The white space of ASCII, one by one. */
  lemma SpacesAre(c: char)
    ensures IsSpace(c) <==> c in ['\t', '\n', '\U{0B}', '\U{0C}', '\r', '\U{1C}', '\U{1D}', '\U{1E}', '\U{1F}', ' ']
  {
  }

  predicate AllSpace(s: string) { forall i :: 0 <= i < |s| ==> IsSpace(s[i]) }

  /** Stripping takes white space off both ends, and all of it. */
  lemma {:induction false} StripIs(s: string) returns (before: string, after: string)
    ensures s == before + Strip(s) + after && AllSpace(before) && AllSpace(after)
    ensures var t := Strip(s); t == "" || (!IsSpace(t[0]) && !IsSpace(t[|t| - 1]))
  {
    hide IsSpace;
    before := StripLeftIs(s);
    after := StripRightIs(StripLeft(s));
  }

  lemma {:induction false} StripLeftIs(s: string) returns (before: string)
    ensures s == before + StripLeft(s) && AllSpace(before)
    ensures StripLeft(s) == "" || !IsSpace(StripLeft(s)[0])
  {
    hide IsSpace;
    before := "";
    if |s| > 0 && IsSpace(s[0]) {
      var b := StripLeftIs(s[1..]);
      before := [s[0]] + b;
    }
  }

  lemma {:induction false} StripRightIs(s: string) returns (after: string)
    ensures s == StripRight(s) + after && AllSpace(after)
    ensures var t := StripRight(s); t == "" || (t[0] == s[0] && !IsSpace(t[|t| - 1]))
  {
    hide IsSpace;
    after := "";
    if |s| > 0 && IsSpace(s[|s| - 1]) {
      var a := StripRightIs(s[..|s| - 1]);
      after := a + [s[|s| - 1]];
    }
  }

  /** Digits, with single underscores between digits. */
  predicate Grouped(s: string) {
    && |s| > 0 && IsDigit(s[0]) && IsDigit(s[|s| - 1])
    && (forall i :: 0 <= i < |s| ==> IsDigit(s[i]) || s[i] == '_')
    && (forall i :: 0 <= i < |s| - 1 ==> IsDigit(s[i]) || IsDigit(s[i + 1]))
  }

  /** `values` reads a text from the left: a digit multiplies by ten and adds. */
  ghost predicate ReadsAs(s: string, values: seq<nat>) {
    && |values| == |s| + 1 && values[0] == 0
    && forall i :: 0 <= i < |s| ==>
         values[i + 1] == if IsDigit(s[i]) then 10 * values[i] + (s[i] as int - '0' as int) else values[i]
  }

  /** Exactly the grouped texts are numbers, and the number is the one that is
      read from the left. */
  lemma {:induction false} ParseNatIs(s: string, values: seq<nat>)
    requires ReadsAs(s, values)
    ensures ParseNat(s) == if Grouped(s) then Some(values[|s|]) else None
  {
    if |s| > 1 && IsDigit(s[|s| - 1]) {
      var n := if s[|s| - 2] == '_' then |s| - 2 else |s| - 1;
      ParseNatIs(s[..n], values[..n + 1]);
      GroupedFront(s, n);
    }
  }

  lemma {:induction false} GroupedFront(s: string, n: nat)
    requires |s| > 1 && IsDigit(s[|s| - 1]) && n == if s[|s| - 2] == '_' then |s| - 2 else |s| - 1
    ensures Grouped(s) <==> Grouped(s[..n])
  {
    var front := s[..n];
    assert forall i :: 0 <= i < n ==> front[i] == s[i];
  }

  /** A number is read with white space around it and one sign before it, and
      nothing else is read as one. */
  lemma {:induction false} ParseIntIs(s: string, digits: string, values: seq<nat>)
    requires Grouped(digits) && ReadsAs(digits, values)
    ensures Strip(s) == digits || Strip(s) == "+" + digits ==> ParseInt(s) == Some(values[|digits|])
    ensures Strip(s) == "-" + digits ==> ParseInt(s).Some? && ParseInt(s).value + values[|digits|] == 0
  {
    hide Strip, ParseNat;
    ParseNatIs(digits, values);
    assert ("+" + digits)[1..] == digits && ("-" + digits)[1..] == digits;
  }

  lemma {:induction false} ParseIntNeeds(s: string) returns (digits: string)
    requires ParseInt(s).Some?
    ensures Grouped(digits) && (Strip(s) == digits || Strip(s) == "+" + digits || Strip(s) == "-" + digits)
  {
    hide Strip, ParseNat;
    var t := Strip(s);
    digits := if |t| > 0 && (t[0] == '-' || t[0] == '+') then t[1..] else t;
    var values := ValuesOf(digits);
    ParseNatIs(digits, values);
    assert |t| > 0 ==> t == [t[0]] + t[1..];
  }

  lemma {:induction false} ValuesOf(s: string) returns (values: seq<nat>)
    ensures ReadsAs(s, values)
  {
    values := [0];
    if |s| > 0 {
      var n := |s| - 1;
      values := ValuesOf(s[..n]);
      values := values + [if IsDigit(s[n]) then 10 * values[n] + (s[n] as int - '0' as int) else values[n]];
    }
  }

  /** Numbers are printed without leading zeros. */
  lemma {:induction false} NoLeadingZero(n: nat)
    ensures NatText(n)[0] == '0' <==> n == 0
  {
    if n >= 10 {
      NoLeadingZero(n / 10);
    }
  }

  lemma {:induction false} ParseNatText(n: nat)
    ensures ParseNat(NatText(n)) == Some(n)
  {
    if n >= 10 {
      ParseNatText(n / 10);
      var s := NatText(n);
      assert s[..|s| - 1] == NatText(n / 10);
    }
  }

  /** Reading a printed integer gives the integer back. */
  lemma ParseIntText(n: int)
    ensures ParseInt(IntText(n)) == Some(n)
  {
    var s := IntText(n);
    ParseNatText(if n < 0 then -n else n);
    assert Strip(s) == s;
    if n < 0 {
      assert s[1..] == NatText(-n);
    } else {
      assert IsDigit(s[0]);
    }
  }

  /** A three-digit number reads back as itself. */
  lemma ParsePad3(n: nat)
    requires n < 1000
    ensures ParseInt(Pad3(n)) == Some(n)
  {
    var s := Pad3(n);
    assert Strip(s) == s;
    ParseNatPad3(n);
    hide ParseNat, Strip;
  }

  lemma ParseNatPad3(n: nat)
    requires n < 1000
    ensures ParseNat(Pad3(n)) == Some(n)
  {
    var a, b, c := DigitChar(n / 100), DigitChar(n / 10 % 10), DigitChar(n % 10);
    assert ParseNat([a]) == Some(n / 100);
    ParseNatSnoc([a], b);
    ParseNatSnoc([a, b], c);
    hide ParseNat;
    assert [a] + [b] == [a, b] && [a, b] + [c] == Pad3(n);
  }

  /** One more digit behind another. */
  lemma {:induction false} ParseNatSnoc(s: string, c: char)
    requires |s| > 0 && IsDigit(s[|s| - 1]) && IsDigit(c)
    ensures ParseNat(s + [c])
            == match ParseNat(s) case None => None case Some(v) => Some(10 * v + (c as int - '0' as int))
  {
    var t := s + [c];
    assert t[..|t| - 1] == s && t[|t| - 2] == s[|s| - 1];
  }
}
