/** FIX 4.4 messages as ordered tag=value fields: the printer that adds
    BodyLength and CheckSum, and the parser that reads the wire text back. */
module FixMessage {
  import opened Optional
  import opened Text

  const SOH: char := '\U{01}'

  datatype Field = Field(tag: int, value: string)

  /** The fields of a message in insertion order, as an ordered dictionary. */
  type Fields = seq<Field>

  predicate Unique(fs: Fields) {
    forall i, j :: 0 <= i < j < |fs| ==> fs[i].tag != fs[j].tag
  }

  function Lookup(fs: Fields, tag: int): Option<string> {
    if |fs| == 0 then None
    else if fs[0].tag == tag then Some(fs[0].value)
    else Lookup(fs[1..], tag)
  }

  lemma {:induction false} LookupMember(fs: Fields, tag: int)
    ensures Lookup(fs, tag).None? <==> forall i :: 0 <= i < |fs| ==> fs[i].tag != tag
    ensures Lookup(fs, tag).Some? ==> Field(tag, Lookup(fs, tag).value) in fs
  {
    if |fs| > 0 && fs[0].tag != tag {
      LookupMember(fs[1..], tag);
      assert forall i :: 1 <= i < |fs| ==> fs[i] == fs[1..][i - 1];
    }
  }

  /** Assigning a tag: an existing field keeps its place, a new one goes last. */
  function Put(fs: Fields, tag: int, value: string): Fields {
    if |fs| == 0 then [Field(tag, value)]
    else if fs[0].tag == tag then [Field(tag, value)] + fs[1..]
    else [fs[0]] + Put(fs[1..], tag, value)
  }

  /** Assigning changes what one tag looks up and nothing else. */
  lemma {:induction false} LookupPut(fs: Fields, tag: int, value: string, t: int)
    ensures Lookup(Put(fs, tag, value), t) == if t == tag then Some(value) else Lookup(fs, t)
  {
    if |fs| > 0 && fs[0].tag != tag {
      LookupPut(fs[1..], tag, value, t);
    }
  }

  /** No field appears out of nothing. */
  lemma {:induction false} PutMembers(fs: Fields, tag: int, value: string, f: Field)
    requires f in Put(fs, tag, value)
    ensures f == Field(tag, value) || f in fs
  {
    if |fs| > 0 && fs[0].tag != tag && f != fs[0] {
      PutMembers(fs[1..], tag, value, f);
    }
  }

  /** The tags of a message and their order change only by a new last tag. */
  lemma {:induction false} PutTags(fs: Fields, tag: int, value: string)
    ensures var r := Put(fs, tag, value);
            && |fs| <= |r| <= |fs| + 1
            && (forall i :: 0 <= i < |fs| ==> r[i].tag == fs[i].tag)
            && (|r| == |fs| + 1 ==> r[|fs|].tag == tag && forall i :: 0 <= i < |fs| ==> fs[i].tag != tag)
  {
    if |fs| > 0 && fs[0].tag != tag {
      PutTags(fs[1..], tag, value);
    }
  }

  lemma {:induction false} PutUnique(fs: Fields, tag: int, value: string)
    requires Unique(fs)
    ensures Unique(Put(fs, tag, value))
  {
    PutTags(fs, tag, value);
  }

  lemma {:induction false} PutFresh(fs: Fields, tag: int, value: string)
    requires forall i :: 0 <= i < |fs| ==> fs[i].tag != tag
    ensures Put(fs, tag, value) == fs + [Field(tag, value)]
  {
    if |fs| > 0 {
      PutFresh(fs[1..], tag, value);
      assert fs + [Field(tag, value)] == [fs[0]] + (fs[1..] + [Field(tag, value)]);
    }
  }

  /** Deleting a tag, if it is there. */
  function Drop(fs: Fields, tag: int): Fields {
    if |fs| == 0 then []
    else if fs[0].tag == tag then fs[1..]
    else [fs[0]] + Drop(fs[1..], tag)
  }

  lemma {:induction false} DropMembers(fs: Fields, tag: int, f: Field)
    requires f in Drop(fs, tag)
    ensures f in fs
  {
    if |fs| > 0 && fs[0].tag != tag && f != fs[0] {
      DropMembers(fs[1..], tag, f);
    }
  }

  lemma {:induction false} DropUnique(fs: Fields, tag: int)
    requires Unique(fs)
    ensures Unique(Drop(fs, tag))
  {
    if |fs| > 0 && fs[0].tag != tag {
      var r := Drop(fs[1..], tag);
      DropUnique(fs[1..], tag);
      forall i | 0 <= i < |r|
        ensures r[i].tag != fs[0].tag
      {
        DropMembers(fs[1..], tag, r[i]);
      }
    }
  }

  /** Deleting a tag hides it and no other. */
  lemma {:induction false} LookupDrop(fs: Fields, tag: int, t: int)
    requires Unique(fs)
    ensures Lookup(Drop(fs, tag), t) == if t == tag then None else Lookup(fs, t)
  {
    if |fs| > 0 {
      if fs[0].tag == tag {
        LookupMember(fs[1..], tag);
      } else {
        LookupDrop(fs[1..], tag, t);
      }
    }
  }

  /** Deleting takes out the first field of the tag and leaves the others in their
      order. */
  lemma {:induction false} DropIs(fs: Fields, tag: int, i: nat)
    requires i <= |fs| && forall j :: 0 <= j < i ==> fs[j].tag != tag
    ensures i == |fs| ==> Drop(fs, tag) == fs
    ensures i < |fs| && fs[i].tag == tag ==> Drop(fs, tag) == fs[..i] + fs[i + 1..]
  {
    if i > 0 {
      DropIs(fs[1..], tag, i - 1);
      assert fs == [fs[0]] + fs[1..];
    }
  }

  // ---------------------------------------------------------------- parsing

  /** One piece of the wire text: None when it has no '=' or its tag is not an
      integer, in which case the parser skips it. */
  function ParsePair(pair: string): (r: Option<Field>)
    ensures r.Some? ==> forall c :: c in r.value.value ==> c in pair
  {
    if '=' !in pair then None
    else
      var i := IndexOf(pair, '=');
      var tag := ParseInt(pair[..i]);
      if tag.None? then None else Some(Field(tag.value, pair[i + 1..]))
  }

  function AddPair(fs: Fields, pair: string): Fields {
    var f := ParsePair(pair);
    if f.None? then fs else Put(fs, f.value.tag, f.value.value)
  }

  function ParsePairs(fs: Fields, pairs: seq<string>): Fields {
    if |pairs| == 0 then fs
    else AddPair(ParsePairs(fs, pairs[..|pairs| - 1]), pairs[|pairs| - 1])
  }

  /** What `FIXMessage.parse` builds from a text. */
  function Parse(raw: string): Fields {
    ParsePairs([], Split(Strip(Replace(raw, SOH, ' ')), ' '))
  }

  /** A piece is a field exactly when an integer stands before its first '='; its
      value is all that follows. */
  lemma {:induction false} ParsePairIff(pair: string, f: Field)
    ensures ParsePair(pair) == Some(f)
            <==> exists tag: string :: && '=' !in tag && pair == tag + ['='] + f.value && ParseInt(tag) == Some(f.tag)
  {
    hide ParseInt;
    if ParsePair(pair) == Some(f) {
      var i := IndexOf(pair, '=');
      assert pair == pair[..i] + ['='] + f.value;
    }
    forall tag: string | '=' !in tag && pair == tag + ['='] + f.value && ParseInt(tag) == Some(f.tag)
      ensures ParsePair(pair) == Some(f)
    {
      IndexOfIs(tag, '=', f.value);
      assert pair[..|tag|] == tag && pair[|tag| + 1..] == f.value;
    }
  }

  /** Of several pieces with one tag the last one counts. */
  lemma {:induction false} LastPairCounts(pairs: seq<string>, tag: int)
    ensures Lookup(ParsePairs([], pairs), tag).None?
            <==> forall i :: 0 <= i < |pairs| ==> ParsePair(pairs[i]).None? || ParsePair(pairs[i]).value.tag != tag
    ensures forall i :: && 0 <= i < |pairs| && ParsePair(pairs[i]).Some? && ParsePair(pairs[i]).value.tag == tag
                        && (forall j :: i < j < |pairs| ==> ParsePair(pairs[j]).None? || ParsePair(pairs[j]).value.tag != tag)
                        ==> Lookup(ParsePairs([], pairs), tag) == Some(ParsePair(pairs[i]).value.value)
  {
    hide ParsePair, Put, Lookup;
    LookupMember([], tag);
    if |pairs| > 0 {
      var n := |pairs| - 1;
      var front, f := pairs[..n], ParsePair(pairs[n]);
      LastPairCounts(front, tag);
      assert forall i :: 0 <= i < n ==> front[i] == pairs[i];
      if f.Some? {
        LookupPut(ParsePairs([], front), f.value.tag, f.value.value, tag);
      }
    }
  }

  /** Decoding wire bytes as ASCII with replacement. */
  function Decode(bytes: string): (r: string)
    ensures |r| == |bytes|
    ensures Ascii(bytes) ==> r == bytes
    ensures forall i :: 0 <= i < |r| ==> r[i] == if bytes[i] > '\U{7F}' then '\U{FFFD}' else bytes[i]
  {
    if |bytes| == 0 then ""
    else [if bytes[0] as int < 128 then bytes[0] else '\U{FFFD}'] + Decode(bytes[1..])
  }

  predicate Ascii(s: string) {
    forall i :: 0 <= i < |s| ==> s[i] as int < 128
  }

  function ParseBytes(bytes: string): Fields {
    Parse(Decode(bytes))
  }

  // --------------------------------------------------------------- printing

  function FieldText(f: Field): string {
    IntText(f.tag) + "=" + f.value
  }

  function FieldTexts(fs: Fields): seq<string> {
    seq(|fs|, i requires 0 <= i < |fs| => FieldText(fs[i]))
  }

  /** The fields that are printed between BodyLength and CheckSum. */
  function BodyFields(fs: Fields): (r: Fields)
    ensures forall f :: f in r <==> f in fs && f.tag !in {8, 9, 10}
  {
    if |fs| == 0 then []
    else if fs[0].tag in {8, 9, 10} then BodyFields(fs[1..])
    else [fs[0]] + BodyFields(fs[1..])
  }

  function BeginString(fs: Fields): string {
    var b := Lookup(fs, 8);
    if b.Some? then b.value else "FIX.4.4"
  }

  function BodyLength(fs: Fields): nat {
    |Join(FieldTexts(BodyFields(fs)), SOH)| + 1
  }

  function CharSum(s: string): nat {
    if |s| == 0 then 0 else CharSum(s[..|s| - 1]) + s[|s| - 1] as int
  }

  function Checksum(s: string): (r: nat)
    ensures r < 256
  {
    CharSum(s) % 256
  }

  /** Everything that precedes the CheckSum field. */
  function Prefix(fs: Fields): string {
    Join(["8=" + BeginString(fs), "9=" + IntText(BodyLength(fs))] + FieldTexts(BodyFields(fs)), SOH) + [SOH]
  }

  /** `FIXMessage.encode_str`. */
  function EncodeStr(fs: Fields): string {
    Prefix(fs) + "10=" + Pad3(Checksum(Prefix(fs))) + [SOH]
  }

  /** `FIXMessage.encode`: None stands for the UnicodeEncodeError. */
  function Encode(fs: Fields): Option<string> {
    if Ascii(EncodeStr(fs)) then Some(EncodeStr(fs)) else None
  }

  /** The fields that the printed text carries: tag 8 defaulted, 9 and 10
      computed, the others in their order. */
  function Printed(fs: Fields): Fields {
    [Field(8, BeginString(fs)), Field(9, IntText(BodyLength(fs)))]
    + BodyFields(fs)
    + [Field(10, Pad3(Checksum(Prefix(fs))))]
  }

  /** A text can be encoded exactly when every character is below 128. */
  lemma EncodeIff(fs: Fields, w: string)
    ensures Encode(fs) == Some(w) <==> w == EncodeStr(fs) && forall c :: c in w ==> c < '\U{80}'
  {
    hide EncodeStr;
    AsciiIff(EncodeStr(fs));
  }

  lemma AsciiIff(s: string)
    ensures Ascii(s) <==> forall c :: c in s ==> c < '\U{80}'
  {
    if forall c :: c in s ==> c < '\U{80}' {
      forall i | 0 <= i < |s|
        ensures s[i] as int < 128
      {
        assert s[i] in s;
      }
    }
  }

  /** The places `at` pick, in order, exactly the fields with other tags than 8, 9
      and 10. */
  ghost predicate Picks(fs: Fields, body: Fields, at: seq<nat>) {
    && |at| == |body| && (forall k :: 0 <= k < |at| ==> at[k] < |fs| && fs[at[k]] == body[k])
    && (forall j, k :: 0 <= j < k < |at| ==> at[j] < at[k])
    && (forall i :: 0 <= i < |fs| ==> (i in at <==> fs[i].tag != 8 && fs[i].tag != 9 && fs[i].tag != 10))
  }

  /** The body holds the fields of all other tags, each once and in their order. */
  lemma {:induction false} BodyIs(fs: Fields) returns (at: seq<nat>)
    ensures Picks(fs, BodyFields(fs), at)
  {
    at := [];
    if |fs| > 0 {
      var n := |fs| - 1;
      var front, f := fs[..n], fs[n];
      assert fs == front + [f];
      BodySnoc(front, f);
      hide BodyFields;
      at := BodyIs(front);
      PicksSnoc(front, f, BodyFields(front), at);
      if f.tag !in {8, 9, 10} {
        at := at + [n];
      }
    }
  }

  lemma {:induction false} BodySnoc(front: Fields, f: Field)
    ensures BodyFields(front + [f]) == if f.tag in {8, 9, 10} then BodyFields(front) else BodyFields(front) + [f]
  {
    if |front| > 0 {
      BodySnoc(front[1..], f);
      assert (front + [f])[1..] == front[1..] + [f];
    }
  }

  lemma {:induction false} PicksSnoc(front: Fields, f: Field, body: Fields, at: seq<nat>)
    requires Picks(front, body, at)
    ensures if f.tag in {8, 9, 10} then Picks(front + [f], body, at)
            else Picks(front + [f], body + [f], at + [|front|])
  {
    assert |front| !in at;
  }

  /** A message begins as its field 8 says, or as FIX 4.4 without one. */
  lemma {:induction false} BeginStringIs(fs: Fields)
    ensures forall v :: Lookup(fs, 8) == Some(v) ==> BeginString(fs) == v
    ensures (forall i :: 0 <= i < |fs| ==> fs[i].tag != 8) ==> BeginString(fs) == "FIX.4.4"
  {
    LookupMember(fs, 8);
  }

  // ------------------------------------------------- the printer, explained

  lemma SmallIntText(n: nat)
    requires n == 8 || n == 9 || n == 10
    ensures IntText(n) == if n == 8 then "8" else if n == 9 then "9" else "10"
  {
    if n == 10 {
      assert NatText(10) == NatText(1) + [DigitChar(0)];
    }
  }

  lemma FrameTexts(h0: Field, h1: Field, b: Fields, last: Field)
    ensures FieldTexts([h0, h1] + b + [last])
            == [FieldText(h0), FieldText(h1)] + FieldTexts(b) + [FieldText(last)]
  {
    hide FieldText;
    var p := [h0, h1] + b + [last];
    forall i | 2 <= i < |b| + 2
      ensures FieldTexts(p)[i] == FieldTexts(b)[i - 2]
    {
      assert p[i] == b[i - 2];
    }
  }

  lemma TrailerTexts(begin: string, length: string, sum: string)
    ensures FieldText(Field(8, begin)) == "8=" + begin
    ensures FieldText(Field(9, length)) == "9=" + length
    ensures FieldText(Field(10, sum)) == "10=" + sum
  {
    SmallIntText(8);
    SmallIntText(9);
    SmallIntText(10);
    assert "8" + "=" == "8=" && "9" + "=" == "9=" && "10" + "=" == "10=";
  }

  /** Two header texts and a body, joined and closed by SOH. */
  lemma {:induction false} HeaderLayout(h0: string, h1: string, body: seq<string>)
    ensures Join([h0, h1] + body, SOH) + [SOH] == h0 + [SOH] + h1 + [SOH] + Terminate(body, SOH)
    ensures Join([h0, h1] + body, SOH) + [SOH] == Terminate([h0, h1] + body, SOH)
  {
    JoinTerminate([h0, h1] + body, SOH);
    assert ([h0, h1] + body)[1..] == [h1] + body;
    assert ([h1] + body)[1..] == body;
  }

  /** The wire text is the printed fields, each ended by SOH. */
  lemma EncodeIsPrinted(fs: Fields)
    ensures EncodeStr(fs) == Terminate(FieldTexts(Printed(fs)), SOH)
  {
    var begin, length, sum := BeginString(fs), IntText(BodyLength(fs)), Pad3(Checksum(Prefix(fs)));
    var body := FieldTexts(BodyFields(fs));
    TrailerTexts(begin, length, sum);
    FrameTexts(Field(8, begin), Field(9, length), BodyFields(fs), Field(10, sum));
    HeaderLayout("8=" + begin, "9=" + length, body);
    TerminateLast(["8=" + begin, "9=" + length] + body, "10=" + sum);
    assert EncodeStr(fs) == Prefix(fs) + ("10=" + sum + [SOH]);
  }

  lemma {:induction false} TerminateLast(front: seq<string>, last: string)
    ensures Terminate(front + [last], SOH) == Terminate(front, SOH) + (last + [SOH])
  {
    TerminateConcat(front, [last], SOH);
    assert Terminate([last], SOH) == last + [SOH];
  }

  /** The layout of a message in terms of its three computed parts. */
  lemma {:induction false} EncodeLayout(fs: Fields)
    ensures EncodeStr(fs) == Prefix(fs) + "10=" + Pad3(Checksum(Prefix(fs))) + [SOH]
    ensures Prefix(fs)
            == "8=" + BeginString(fs) + [SOH] + "9=" + IntText(BodyLength(fs)) + [SOH]
               + Terminate(FieldTexts(BodyFields(fs)), SOH)
  {
    hide BeginString, IntText, BodyLength, Pad3, Checksum, BodyFields, FieldTexts, Terminate;
    var h0, h1 := "8=" + BeginString(fs), "9=" + IntText(BodyLength(fs));
    HeaderLayout(h0, h1, FieldTexts(BodyFields(fs)));
    assert h0 + [SOH] + h1 + [SOH] == "8=" + BeginString(fs) + [SOH] + "9=" + IntText(BodyLength(fs)) + [SOH];
  }

  /** The running totals of the character codes of a text. */
  ghost predicate RunningTotals(running: seq<nat>, s: string) {
    && |running| == |s| + 1 && running[0] == 0
    && forall i :: 0 <= i < |s| ==> running[i + 1] == running[i] + s[i] as int
  }

  /** The number that CheckSum must hold: all character codes added, modulo 256. */
  ghost predicate IsCheckSum(s: string, n: nat) {
    exists running: seq<nat> :: RunningTotals(running, s) && n == running[|s|] % 256
  }

  /** The sum that is printed is the last of the running totals. */
  lemma {:induction false} CharSumIs(s: string, running: seq<nat>)
    requires RunningTotals(running, s)
    ensures CharSum(s) == running[|s|]
  {
    if |s| > 0 {
      CharSumIs(s[..|s| - 1], running[..|s|]);
    }
  }

  lemma {:induction false} TotalsOf(s: string) returns (running: seq<nat>)
    ensures RunningTotals(running, s)
  {
    running := [0];
    if |s| > 0 {
      running := TotalsOf(s[..|s| - 1]);
      running := running + [running[|s| - 1] + s[|s| - 1] as int];
    }
  }

  /** The printed CheckSum is the sum of the character codes modulo 256. */
  lemma {:induction false} ChecksumIs(s: string, n: nat)
    ensures IsCheckSum(s, n) <==> n == Checksum(s)
  {
    hide CharSum;
    var running := TotalsOf(s);
    CharSumIs(s, running);
    forall other: seq<nat> | RunningTotals(other, s)
      ensures other[|s|] == CharSum(s)
    {
      CharSumIs(s, other);
    }
  }

  /** The message format of FIX 4.4, Volume 1, section 'FIX "Tag=Value" Syntax',
      with BodyLength and CheckSum as Volume 2 defines them. The witness names
      the four free parts of the text. */
  ghost predicate ConformsWith(w: string, begin: string, length: string, body: string, sum: string) {
    && w == "8=" + begin + [SOH] + "9=" + length + [SOH] + body + "10=" + sum + [SOH]
    && SOH !in begin && SOH !in length
    && |sum| == 3
    && ParseInt(length) == Some(|body|)
    && ParseInt(sum).Some? && ParseInt(sum).value >= 0 && IsCheckSum(w[..|w| - 7], ParseInt(sum).value)
  }

  ghost predicate Conforms(w: string) {
    exists begin, length, body, sum :: ConformsWith(w, begin, length, body, sum)
  }

  lemma NoSohInIntText(n: int)
    ensures SOH !in IntText(n) && ' ' !in IntText(n) && '=' !in IntText(n)
  {
  }

  /** Two texts cut at their first separator agree part by part. */
  lemma SameCut(a: string, x: string, b: string, y: string, c: char)
    requires c !in a && c !in b
    requires a + [c] + x == b + [c] + y
    ensures a == b && x == y
  {
    IndexOfIs(a, c, x);
    IndexOfIs(b, c, y);
    assert a == (a + [c] + x)[..|a|];
    assert b == (b + [c] + y)[..|b|];
    assert x == (a + [c] + x)[|a| + 1..];
    assert y == (b + [c] + y)[|b| + 1..];
  }

  /** The printed BodyLength and CheckSum are those of the standard exactly when
      the message has a field besides 8, 9 and 10: without one, BodyLength says
      1 for an empty body. */
  lemma {:induction false} EncodeConformsIff(fs: Fields)
    requires SOH !in BeginString(fs)
    ensures Conforms(EncodeStr(fs)) <==> BodyFields(fs) != []
  {
    if BodyFields(fs) != [] {
      BodyConforms(fs);
    } else {
      forall b, l, t, s
        ensures !ConformsWith(EncodeStr(fs), b, l, t, s)
      {
        NoBodyFails(fs, b, l, t, s);
      }
    }
  }

  /** What BodyLength counts: the body with its SOH bytes, or one for none. */
  lemma {:induction false} BodyLengthIs(fs: Fields)
    ensures var body := Terminate(FieldTexts(BodyFields(fs)), SOH);
            if BodyFields(fs) == [] then body == "" && BodyLength(fs) == 1 else BodyLength(fs) == |body|
  {
    if BodyFields(fs) != [] {
      JoinTerminate(FieldTexts(BodyFields(fs)), SOH);
    }
  }

  /** The four parts of a printed text, the body possibly empty. */
  lemma {:induction false} PrintedParts(fs: Fields)
    ensures var w, length, sum := EncodeStr(fs), IntText(BodyLength(fs)), Pad3(Checksum(Prefix(fs)));
            && w == "8=" + BeginString(fs) + [SOH] + "9=" + length + [SOH]
                    + Terminate(FieldTexts(BodyFields(fs)), SOH) + "10=" + sum + [SOH]
            && SOH !in length && |sum| == 3 && ParseInt(length) == Some(BodyLength(fs))
            && w[..|w| - 7] == Prefix(fs) && ParseInt(sum) == Some(Checksum(Prefix(fs)))
  {
    hide IntText, BodyLength, Prefix, EncodeStr, BeginString, BodyFields, Terminate, ParseInt, CharSum;
    EncodeLayout(fs);
    NoSohInIntText(BodyLength(fs));
    ParseIntText(BodyLength(fs));
    ParsePad3(Checksum(Prefix(fs)));
  }

  lemma {:induction false} BodyConforms(fs: Fields)
    requires SOH !in BeginString(fs) && BodyFields(fs) != []
    ensures Conforms(EncodeStr(fs))
  {
    PrintedParts(fs);
    BodyLengthIs(fs);
    ChecksumIs(Prefix(fs), Checksum(Prefix(fs)));
    hide IntText, BodyLength, Prefix, EncodeStr, BeginString, BodyFields, Terminate, ParseInt, Checksum, IsCheckSum, Pad3;
    assert ConformsWith(EncodeStr(fs), BeginString(fs), IntText(BodyLength(fs)),
                        Terminate(FieldTexts(BodyFields(fs)), SOH), Pad3(Checksum(Prefix(fs))));
  }

  lemma {:induction false} NoBodyFails(fs: Fields, b: string, l: string, t: string, s: string)
    requires SOH !in BeginString(fs) && BodyFields(fs) == []
    ensures !ConformsWith(EncodeStr(fs), b, l, t, s)
  {
    PrintedParts(fs);
    BodyLengthIs(fs);
    hide IntText, BodyLength, Prefix, EncodeStr, BeginString, BodyFields, Terminate, ParseInt, Checksum, IsCheckSum, Pad3;
    if ConformsWith(EncodeStr(fs), b, l, t, s) {
      SameParts("8=", "9=", "10=", b, l, t, s, BeginString(fs), IntText(BodyLength(fs)), Pad3(Checksum(Prefix(fs))));
    }
  }

  /** Every way to read a text whose body is empty has the same BodyLength. */
  lemma SameParts(p: string, q: string, r: string, b: string, l: string, t: string, s: string,
                  begin: string, length: string, sum: string)
    requires SOH !in p && SOH !in q && |s| == |sum|
    requires SOH !in b && SOH !in l && SOH !in begin && SOH !in length
    requires p + b + [SOH] + q + l + [SOH] + t + r + s + [SOH]
             == p + begin + [SOH] + q + length + [SOH] + "" + r + sum + [SOH]
    ensures l == length && t == ""
  {
    var x', y' := t + r + s + [SOH], "" + r + sum + [SOH];
    Regroup(p, b, [SOH], q, l, t, r, s);
    Regroup(p, begin, [SOH], q, length, "", r, sum);
    SameValueCut(p, b, q + l + [SOH] + x', begin, q + length + [SOH] + y');
    SameValueCut(q, l, x', length, y');
    assert |x'| == |y'|;
  }

  lemma Regroup(p: string, b: string, c: string, q: string, l: string, t: string, r: string, s: string)
    ensures p + b + c + q + l + c + t + r + s + c == p + b + c + (q + l + c + (t + r + s + c))
  {
    var z := t + r + s + c;
    assert q + l + c + z == q + (l + (c + z));
    assert p + b + c + q + l + c + z == p + b + c + (q + (l + (c + z)));
  }

  lemma SameValueCut(tag: string, a: string, x: string, b: string, y: string)
    requires SOH !in tag && SOH !in a && SOH !in b
    requires tag + a + [SOH] + x == tag + b + [SOH] + y
    ensures a == b && x == y
  {
    SameCut(tag + a, x, tag + b, y, SOH);
    assert a == (tag + a)[|tag|..];
    assert b == (tag + b)[|tag|..];
  }

  // ------------------------------------------------------------- round trip

  /** A value that survives the parser, which cuts the text at SOH and at
      spaces alike. */
  predicate Clean(value: string) {
    ' ' !in value && SOH !in value
  }

  predicate AllClean(fs: Fields) {
    forall i :: 0 <= i < |fs| ==> Clean(fs[i].value)
  }

  lemma ParsePairFieldText(f: Field)
    ensures ParsePair(FieldText(f)) == Some(f)
  {
    NoSohInIntText(f.tag);
    IndexOfIs(IntText(f.tag), '=', f.value);
    var s := FieldText(f);
    assert s == IntText(f.tag) + ['='] + f.value;
    assert s[..|IntText(f.tag)|] == IntText(f.tag);
    assert s[|IntText(f.tag)| + 1..] == f.value;
    ParseIntText(f.tag);
  }

  lemma TextsPrefix(fs: Fields, n: nat)
    requires n < |fs|
    ensures FieldTexts(fs)[..n] == FieldTexts(fs[..n])
  {
    var l, r := FieldTexts(fs)[..n], FieldTexts(fs[..n]);
    assert forall i :: 0 <= i < n ==> l[i] == r[i];
  }

  lemma {:induction false} ParsePrintedPairs(fs: Fields)
    requires Unique(fs)
    ensures ParsePairs([], FieldTexts(fs)) == fs
  {
    hide FieldText, ParsePair;
    if |fs| > 0 {
      var n := |fs| - 1;
      TextsPrefix(fs, n);
      ParsePrintedPairs(fs[..n]);
      ParsePairFieldText(fs[n]);
      ParseOneMore(fs[..n], FieldTexts(fs), fs[n]);
      assert fs == fs[..n] + [fs[n]];
    }
  }

  lemma {:induction false} ParseOneMore(front: Fields, pairs: seq<string>, f: Field)
    requires |pairs| > 0
    requires ParsePairs([], pairs[..|pairs| - 1]) == front
    requires ParsePair(pairs[|pairs| - 1]) == Some(f)
    requires forall i :: 0 <= i < |front| ==> front[i].tag != f.tag
    ensures ParsePairs([], pairs) == front + [f]
  {
    PutFresh(front, f.tag, f.value);
  }

  lemma {:induction false} ReplaceTerminate(parts: seq<string>)
    requires forall i :: 0 <= i < |parts| ==> SOH !in parts[i]
    ensures Replace(Terminate(parts, SOH), SOH, ' ') == Terminate(parts, ' ')
  {
    if |parts| > 0 {
      var head, rest := parts[0], Terminate(parts[1..], SOH);
      assert Terminate(parts, SOH) == head + [SOH] + rest;
      assert Terminate(parts, ' ') == head + [' '] + Terminate(parts[1..], ' ');
      ReplaceTerminate(parts[1..]);
      assert Replace([SOH], SOH, ' ') == [' '];
      hide Terminate, Replace;
      ReplaceConcat(head + [SOH], rest, SOH, ' ');
      ReplaceConcat(head, [SOH], SOH, ' ');
      ReplaceNone(head, SOH, ' ');
    }
  }

  /** The field texts of clean fields come back from the terminated text. */
  lemma ParseTerminated(fs: Fields)
    requires |fs| > 0 && Unique(fs) && AllClean(fs)
    requires fs[|fs| - 1].value != "" && !IsSpace(fs[|fs| - 1].value[|fs[|fs| - 1].value| - 1])
    ensures Parse(Terminate(FieldTexts(fs), SOH)) == fs
  {
    var parts := FieldTexts(fs);
    hide IntText, FieldText, Terminate, Join, Split, Strip, Replace, ParsePairs;
    forall i | 0 <= i < |parts|
      ensures SOH !in parts[i] && ' ' !in parts[i]
    {
      FieldTextClean(fs[i]);
    }
    FieldTextEnds(fs[0]);
    FieldTextEnds(fs[|fs| - 1]);
    ReplaceTerminate(parts);
    JoinTerminate(parts, ' ');
    var joined := Join(parts, ' ');
    JoinEnds(parts, ' ');
    assert Replace(Terminate(parts, SOH), SOH, ' ') == joined + " ";
    StripTrailing(joined);
    SplitJoin(parts, ' ');
    ParsePrintedPairs(fs);
  }

  lemma FieldTextClean(f: Field)
    requires Clean(f.value)
    ensures SOH !in FieldText(f) && ' ' !in FieldText(f)
  {
    NoSohInIntText(f.tag);
    hide IntText;
  }

  lemma FieldTextEnds(f: Field)
    ensures |FieldText(f)| > 0 && !IsSpace(FieldText(f)[0])
    ensures f.value != "" ==> FieldText(f)[|FieldText(f)| - 1] == f.value[|f.value| - 1]
  {
  }

  lemma StripTrailing(s: string)
    requires |s| > 0 && !IsSpace(s[0]) && !IsSpace(s[|s| - 1])
    ensures Strip(s + " ") == s
  {
    var t := s + " ";
    assert t[..|t| - 1] == s;
    assert StripRight(t) == StripRight(s);
  }

  /** The first and last characters of a joined text. */
  lemma {:induction false} JoinEnds(parts: seq<string>, sep: char)
    requires |parts| > 0 && parts[0] != "" && parts[|parts| - 1] != ""
    ensures Join(parts, sep) != ""
    ensures Join(parts, sep)[0] == parts[0][0]
    ensures var s, l := Join(parts, sep), parts[|parts| - 1]; s[|s| - 1] == l[|l| - 1]
  {
    if |parts| > 1 {
      JoinSnoc(parts[..|parts| - 1], parts[|parts| - 1], sep);
      assert parts[..|parts| - 1] + [parts[|parts| - 1]] == parts;
    }
  }

  lemma {:induction false} BodyUnique(fs: Fields)
    requires Unique(fs)
    ensures Unique(BodyFields(fs))
  {
    if |fs| > 0 {
      assert forall f :: f in fs[1..] ==> f.tag != fs[0].tag;
      BodyUnique(fs[1..]);
    }
  }

  lemma FrameUnique(h0: Field, h1: Field, b: Fields, last: Field)
    requires Unique(b) && h0.tag == 8 && h1.tag == 9 && last.tag == 10
    requires forall f :: f in b ==> f.tag !in {8, 9, 10}
    ensures Unique([h0, h1] + b + [last])
  {
    var p := [h0, h1] + b + [last];
    forall i, j | 0 <= i < j < |p|
      ensures p[i].tag != p[j].tag
    {
      assert 2 <= i < |b| + 2 ==> p[i] == b[i - 2] && p[i] in b;
      assert 2 <= j < |b| + 2 ==> p[j] == b[j - 2] && p[j] in b;
    }
  }

  lemma PrintedUnique(fs: Fields)
    requires Unique(fs)
    ensures Unique(Printed(fs))
  {
    BodyUnique(fs);
    FrameUnique(Field(8, BeginString(fs)), Field(9, IntText(BodyLength(fs))), BodyFields(fs),
                Field(10, Pad3(Checksum(Prefix(fs)))));
  }

  /** No parsed value holds a space or SOH, whatever was parsed. */
  lemma ParsedClean(raw: string)
    ensures AllClean(Parse(raw))
  {
    ParsedPairsClean(Split(Strip(Replace(raw, SOH, ' ')), ' '));
    var s := Strip(Replace(raw, SOH, ' '));
    var parts := Split(s, ' ');
    JoinCharacters(parts, ' ');
    assert SOH !in s;
  }

  lemma {:induction false} JoinCharacters(parts: seq<string>, sep: char)
    ensures forall k, c :: 0 <= k < |parts| && c in parts[k] ==> c in Join(parts, sep)
  {
    if |parts| > 1 {
      JoinCharacters(parts[1..], sep);
      assert forall k :: 1 <= k < |parts| ==> parts[k] == parts[1..][k - 1];
    }
  }

  lemma {:induction false} ParsedPairsClean(parts: seq<string>)
    ensures (forall k :: 0 <= k < |parts| ==> Clean(parts[k])) ==> AllClean(ParsePairs([], parts))
  {
    if |parts| > 0 {
      var n := |parts| - 1;
      var fs, f := ParsePairs([], parts[..n]), ParsePair(parts[n]);
      ParsedPairsClean(parts[..n]);
      if (forall k :: 0 <= k < |parts| ==> Clean(parts[k])) && f.Some? {
        var r := ParsePairs([], parts);
        forall i | 0 <= i < |r|
          ensures Clean(r[i].value)
        {
          assert Clean(parts[n]);
          PutMembers(fs, f.value.tag, f.value.value, r[i]);
        }
      }
    }
  }

  /** Clean values stay clean between the computed header and trailer. */
  lemma FrameClean(h0: Field, h1: Field, b: Fields, last: Field)
    requires Clean(h1.value) && Clean(last.value)
    ensures AllClean([h0, h1] + b + [last]) <==> Clean(h0.value) && AllClean(b)
  {
    var p := [h0, h1] + b + [last];
    assert p[0] == h0;
    assert forall i :: 0 <= i < |b| ==> p[i + 2] == b[i];
  }

  /** `parse` inverts `encode_str` exactly for the messages whose printed values
      hold no space and no SOH: everything comes back in order, with tag 8
      defaulted and tags 9 and 10 computed. */
  lemma {:induction false} ParseEncodeIff(fs: Fields)
    requires Unique(fs)
    ensures Parse(EncodeStr(fs)) == Printed(fs)
            <==> Clean(BeginString(fs)) && AllClean(BodyFields(fs))
  {
    var length, sum := IntText(BodyLength(fs)), Pad3(Checksum(Prefix(fs)));
    NoSohInIntText(BodyLength(fs));
    FrameClean(Field(8, BeginString(fs)), Field(9, length), BodyFields(fs), Field(10, sum));
    EncodeIsPrinted(fs);
    PrintedUnique(fs);
    var p := Printed(fs);
    if AllClean(p) {
      assert p[|p| - 1].value == sum;
      ParseTerminated(p);
    }
    ParsedClean(EncodeStr(fs));
  }

  // ------------------------------------------------------- the mutable form

  /** A message object: the printer reads its fields, the setters change them. */
  class FIXMessage {
    var fields: Fields

    constructor ()
      ensures fields == []
    {
      fields := [];
    }

    method Set(tag: int, value: string)
      modifies this
      ensures fields == Put(old(fields), tag, value)
      ensures Unique(old(fields)) ==> Unique(fields)
      ensures forall t :: Lookup(fields, t) == if t == tag then Some(value) else Lookup(old(fields), t)
    {
      hide Put, Lookup, Unique;
      if Unique(fields) {
        PutUnique(fields, tag, value);
      }
      forall t ensures Lookup(Put(fields, tag, value), t) == if t == tag then Some(value) else Lookup(fields, t) {
        LookupPut(fields, tag, value, t);
      }
      fields := Put(fields, tag, value);
    }

    method Remove(tag: int)
      modifies this
      ensures fields == Drop(old(fields), tag)
      ensures Unique(old(fields)) ==>
                && Unique(fields)
                && forall t :: Lookup(fields, t) == if t == tag then None else Lookup(old(fields), t)
    {
      hide Drop, Lookup, Unique;
      if Unique(fields) {
        DropUnique(fields, tag);
        forall t ensures Lookup(Drop(fields, tag), t) == if t == tag then None else Lookup(fields, t) {
          LookupDrop(fields, tag, t);
        }
      }
      fields := Drop(fields, tag);
    }

    /** The parsing loop over the pieces between spaces. */
    static method FromText(raw: string) returns (msg: FIXMessage)
      ensures fresh(msg) && msg.fields == Parse(raw)
    {
      msg := new FIXMessage();
      var pairs := Split(Strip(Replace(raw, SOH, ' ')), ' ');
      var i := 0;
      while i < |pairs|
        invariant 0 <= i <= |pairs|
        invariant msg.fields == ParsePairs([], pairs[..i])
        modifies msg
      {
        var f := ParsePair(pairs[i]);
        assert pairs[..i + 1][..i] == pairs[..i];
        if f.Some? {
          msg.Set(f.value.tag, f.value.value);
        }
        i := i + 1;
      }
      assert pairs[..i] == pairs;
    }
  }
}
