/** Recovering FIX frames from a byte stream that arrives in arbitrary chunks. */
module FixFraming {
  import opened Optional
  import opened Text
  import opened FixMessage

  const TRAILER := "10="

  /** The BodyLength among the pieces before the second SOH; its value is only
      tested for being an integer. */
  function BodyLengthOf(pieces: seq<string>): Option<int> {
    if |pieces| == 0 then None
    else if |pieces[0]| >= 2 && pieces[0][..2] == "9=" then ParseInt(pieces[0][2..])
    else BodyLengthOf(pieces[1..])
  }

  /** `_extract_body_length` on the part of the buffer before an SOH. */
  function ExtractBodyLength(prefix: string): Option<int> {
    BodyLengthOf(Split(Decode(prefix), SOH))
  }

  /** The SOH that closes the first trailer at or after a position. */
  function TrailerEnd(buffer: string, start: nat): (r: Option<nat>)
    ensures r.Some? ==> start + 3 <= r.value < |buffer|
  {
    var trailer := Find(buffer, TRAILER, start);
    if trailer.None? then None else Find(buffer, [SOH], trailer.value + 3)
  }

  /** Where the first complete frame of the buffer ends. */
  function FrameEnd(buffer: string): (r: Option<nat>)
    ensures r.Some? ==> 0 < r.value <= |buffer|
  {
    var first := Find(buffer, [SOH], 0);
    if first.None? then None else
    var second := Find(buffer, [SOH], first.value + 1);
    if second.None? then None else
    if ExtractBodyLength(buffer[..second.value]).None? then None else
    var last := TrailerEnd(buffer, second.value + 1);
    if last.None? then None else Some(last.value + 1)
  }

  datatype Drained = Drained(frames: seq<string>, rest: string)

  /** What the scan loop makes of a buffer: the frames it cuts off and the
      text it keeps for later. */
  function Drain(buffer: string): Drained
    decreases |buffer|
  {
    var end := FrameEnd(buffer);
    if end.None? then Drained([], buffer)
    else
      var more := Drain(buffer[end.value..]);
      Drained([buffer[..end.value]] + more.frames, more.rest)
  }

  function Concat(parts: seq<string>): string {
    if |parts| == 0 then "" else parts[0] + Concat(parts[1..])
  }

  /** The read loop over what successive reads return: each chunk is appended
      and scanned; an empty read means the peer closed the connection. */
  function ReadAll(buffer: string, chunks: seq<string>): Drained
    decreases |chunks|
  {
    if |chunks| == 0 || chunks[0] == "" then Drained([], buffer)
    else
      var now := Drain(buffer + chunks[0]);
      var later := ReadAll(now.rest, chunks[1..]);
      Drained(now.frames + later.frames, later.rest)
  }

  // ------------------------------------------------------- chunk invariance

  /** A complete frame stays the same frame when more bytes arrive. */
  lemma FrameEndStable(buffer: string, more: string)
    requires FrameEnd(buffer).Some?
    ensures FrameEnd(buffer + more) == FrameEnd(buffer)
  {
    hide ExtractBodyLength, Find, At;
    var first := Find(buffer, [SOH], 0).value;
    var second := Find(buffer, [SOH], first + 1).value;
    var trailer := Find(buffer, TRAILER, second + 1).value;
    FindStable(buffer, more, [SOH], 0);
    FindStable(buffer, more, [SOH], first + 1);
    FindStable(buffer, more, TRAILER, second + 1);
    FindStable(buffer, more, [SOH], trailer + 3);
    assert (buffer + more)[..second] == buffer[..second];
  }

  /** One round of the scan loop. */
  lemma {:induction false} DrainStep(buffer: string)
    ensures FrameEnd(buffer).None? ==> Drain(buffer) == Drained([], buffer)
    ensures FrameEnd(buffer).Some? ==>
              var end := FrameEnd(buffer).value;
              Drain(buffer) == Drained([buffer[..end]] + Drain(buffer[end..]).frames, Drain(buffer[end..]).rest)
  {
    hide FrameEnd;
  }

  /** Scanning early and scanning again later finds the same frames as scanning
      once at the end. */
  lemma {:induction false} DrainAppend(buffer: string, more: string)
    ensures var early := Drain(buffer);
            var late := Drain(early.rest + more);
            Drain(buffer + more) == Drained(early.frames + late.frames, late.rest)
    decreases |buffer|
  {
    hide FrameEnd, Drain;
    DrainStep(buffer);
    DrainStep(buffer + more);
    var end := FrameEnd(buffer);
    if end.Some? {
      FrameEndStable(buffer, more);
      var first, tail := buffer[..end.value], buffer[end.value..];
      assert (buffer + more)[..end.value] == first;
      assert (buffer + more)[end.value..] == tail + more;
      DrainAppend(tail, more);
      var early, late := Drain(tail), Drain(Drain(tail).rest + more);
      assert [first] + (early.frames + late.frames) == [first] + early.frames + late.frames;
    } else {
      assert [] + Drain(buffer + more).frames == Drain(buffer + more).frames;
    }
  }

  /** However a byte stream is cut into non-empty reads, and whatever the bytes
      are, the frames and the residue are those of one big read. */
  lemma {:induction false} ChunkInvariance(buffer: string, chunks: seq<string>)
    requires forall k :: 0 <= k < |chunks| ==> chunks[k] != ""
    requires FrameEnd(buffer).None?
    ensures ReadAll(buffer, chunks) == Drain(buffer + Concat(chunks))
    decreases |chunks|
  {
    hide FrameEnd;
    if |chunks| == 0 {
      assert buffer + "" == buffer;
    } else {
      var now := Drain(buffer + chunks[0]);
      DrainedIsDry(buffer + chunks[0]);
      ChunkInvariance(now.rest, chunks[1..]);
      DrainAppend(buffer + chunks[0], Concat(chunks[1..]));
      assert buffer + chunks[0] + Concat(chunks[1..]) == buffer + Concat(chunks);
    }
  }

  /** The scan loop leaves no complete frame behind. */
  lemma {:induction false} DrainedIsDry(buffer: string)
    ensures FrameEnd(Drain(buffer).rest).None?
    decreases |buffer|
  {
    var end := FrameEnd(buffer);
    if end.Some? {
      DrainedIsDry(buffer[end.value..]);
    }
  }

  /** No byte is lost or reordered by framing. */
  lemma {:induction false} DrainConserves(buffer: string)
    ensures Concat(Drain(buffer).frames) + Drain(buffer).rest == buffer
    decreases |buffer|
  {
    hide Drain, FrameEnd;
    DrainStep(buffer);
    var end := FrameEnd(buffer);
    if end.Some? {
      var first, more := buffer[..end.value], Drain(buffer[end.value..]);
      DrainConserves(buffer[end.value..]);
      ConcatCons(first, more.frames, more.rest);
    }
  }

  lemma {:induction false} ConcatCons(first: string, parts: seq<string>, rest: string)
    ensures Concat([first] + parts) + rest == first + (Concat(parts) + rest)
  {
    assert ([first] + parts)[1..] == parts;
  }

  /** The header is readable exactly when the first of its two fields that begins
      with 9= has an integer behind it. */
  lemma {:induction false} ReadableIff(h: string, n: string)
    requires SOH !in h && SOH !in n
    ensures ExtractBodyLength(h + [SOH] + n).Some?
            <==> exists digits: string :: ParseInt(digits).Some?
                   && (Decode(h) == "9=" + digits || ((forall d: string :: Decode(h) != "9=" + d) && Decode(n) == "9=" + digits))
  {
    hide Decode, ParseInt, Split;
    var a, b := Decode(h), Decode(n);
    DecodeHeader(h, n);
    SplitJoin([a, b], SOH);
    assert [a, b][1..] == [b];
    NineIff(a);
    NineIff(b);
    assert BodyLengthOf([b][1..]) == None;
    assert BodyLengthOf([b]) == if |b| >= 2 && b[..2] == "9=" then ParseInt(b[2..]) else None;
    assert BodyLengthOf([a, b]) == if |a| >= 2 && a[..2] == "9=" then ParseInt(a[2..]) else BodyLengthOf([b]);
    assert forall d: string :: ("9=" + d)[2..] == d;
  }

  lemma NineIff(s: string)
    ensures |s| >= 2 && s[..2] == "9=" <==> exists d: string :: s == "9=" + d
    ensures |s| >= 2 && s[..2] == "9=" ==> s == "9=" + s[2..]
  {
    if |s| >= 2 && s[..2] == "9=" {
      assert s == "9=" + s[2..];
    }
  }

  lemma {:induction false} DecodeHeader(h: string, n: string)
    requires SOH !in h && SOH !in n
    ensures Decode(h + [SOH] + n) == Join([Decode(h), Decode(n)], SOH)
    ensures SOH !in Decode(h) && SOH !in Decode(n)
  {
    DecodeConcat(h + [SOH], n);
    DecodeConcat(h, [SOH]);
    assert Decode([SOH]) == [SOH];
    hide Decode;
    assert [Decode(h), Decode(n)][1..] == [Decode(n)];
  }

  lemma {:induction false} DecodeConcat(a: string, b: string)
    ensures Decode(a + b) == Decode(a) + Decode(b)
  {
    hide Decode;
    var l, r := Decode(a + b), Decode(a) + Decode(b);
    forall i | 0 <= i < |a + b|
      ensures l[i] == r[i]
    {
    }
  }

  /** Once two SOH bytes are there, the reader can still make progress on some
      continuation exactly when the text before the second one holds an integer
      BodyLength; otherwise it is stuck for good. */
  lemma {:induction false} StuckIff(buffer: string, first: nat, second: nat)
    requires Find(buffer, [SOH], 0) == Some(first)
    requires Find(buffer, [SOH], first + 1) == Some(second)
    ensures ExtractBodyLength(buffer[..second]).None?
            <==> forall more: string :: FrameEnd(buffer + more).None?
  {
    hide ExtractBodyLength, Find;
    forall more: string
      ensures FrameEnd(buffer + more).Some? ==> ExtractBodyLength(buffer[..second]).Some?
    {
      FindStable(buffer, more, [SOH], 0);
      FindStable(buffer, more, [SOH], first + 1);
      assert (buffer + more)[..second] == buffer[..second];
    }
    TrailerEnds(buffer, first, second);
    assert ExtractBodyLength(buffer[..second]).Some? ==> FrameEnd(buffer + (TRAILER + [SOH])).Some?;
  }

  /** A trailer appended to a readable header ends a frame. */
  lemma {:induction false} TrailerEnds(buffer: string, first: nat, second: nat)
    requires Find(buffer, [SOH], 0) == Some(first)
    requires Find(buffer, [SOH], first + 1) == Some(second)
    ensures ExtractBodyLength(buffer[..second]).Some? ==> FrameEnd(buffer + (TRAILER + [SOH])).Some?
  {
    hide ExtractBodyLength, Find;
    var s := buffer + (TRAILER + [SOH]);
    FindStable(buffer, TRAILER + [SOH], [SOH], 0);
    FindStable(buffer, TRAILER + [SOH], [SOH], first + 1);
    assert s[..second] == buffer[..second];
    assert s[|buffer|..|buffer| + 3] == TRAILER;
    assert second < |buffer|;
    FindFirst(s, TRAILER, second + 1, |buffer|);
    assert s[|s| - 1..] == [SOH];
    FindFirst(s, [SOH], Find(s, TRAILER, second + 1).value + 3, |s| - 1);
  }

  // ------------------------------------------------------ framing a message

  /** A text that the search for the trailer must not meet inside a body. */
  predicate NoTrailerInside(texts: seq<string>) {
    forall k :: 0 <= k < |texts| ==> !Contains(texts[k], TRAILER)
  }

  /** The trailer text cannot start inside terminated texts that do not
      contain it, since it would have to run over an SOH. */
  lemma {:induction false} NotInTerminated(texts: seq<string>, rest: string, j: nat)
    requires NoTrailerInside(texts) && j < |Terminate(texts, SOH)|
    ensures !At(Terminate(texts, SOH) + rest, TRAILER, j)
  {
    var s := Terminate(texts, SOH) + rest;
    var t := texts[0];
    var s' := Terminate(texts[1..], SOH) + rest;
    assert s == t + [SOH] + s';
    if At(s, TRAILER, j) {
      assert s[j] == '1' && s[j + 1] == '0' && s[j + 2] == '=' by {
        var m := s[j..j + 3];
        assert m[0] == s[j] && m[1] == s[j + 1] && m[2] == s[j + 2];
      }
      assert s[|t|] == SOH;
      if j + 3 <= |t| {
        assert t[j..j + 3] == s[j..j + 3];
        assert At(t, TRAILER, j);
        assert false;
      } else if |t| < j {
        assert s[j..j + 3] == s'[j - |t| - 1..j - |t| - 1 + 3];
        NotInTerminated(texts[1..], rest, j - |t| - 1);
        assert false;
      }
    }
  }

  /** A text that does contain it makes the search stop early. */
  lemma {:induction false} InTerminated(texts: seq<string>, rest: string) returns (j: nat)
    requires !NoTrailerInside(texts)
    ensures j + 3 < |Terminate(texts, SOH)|
    ensures At(Terminate(texts, SOH) + rest, TRAILER, j)
  {
    var s := Terminate(texts, SOH) + rest;
    var t := texts[0];
    var s' := Terminate(texts[1..], SOH) + rest;
    assert s == t + [SOH] + s';
    if Contains(t, TRAILER) {
      j :| j <= |t| && At(t, TRAILER, j);
      assert s[j..j + 3] == t[j..j + 3];
    } else {
      var k :| 0 <= k < |texts| && Contains(texts[k], TRAILER);
      assert texts[1..][k - 1] == texts[k];
      var i := InTerminated(texts[1..], rest);
      j := |t| + 1 + i;
      assert s[j..j + 3] == s'[i..i + 3];
    }
  }

  /** The layout of a message, with whatever follows it. */
  predicate Layout(s: string, h: string, n: string, texts: seq<string>, sum: string, tail: string) {
    && s == h + [SOH] + (n + [SOH] + (Terminate(texts, SOH) + (TRAILER + sum + [SOH] + tail)))
    && SOH !in h && SOH !in n && SOH !in sum
    && |sum| == 3
    && Ascii(h) && Ascii(n)
    && BodyLengthOf([h, n]).Some?
  }

  /** The header of a laid-out message: two SOH bytes, none before them. */
  lemma LayoutHeader(s: string, h: string, n: string, texts: seq<string>, sum: string, tail: string)
    requires Layout(s, h, n, texts, sum, tail)
    ensures var e := |h| + 1 + |n|; e < |s| && s[..e] == h + [SOH] + n && s[e] == SOH
  {
    hide Terminate, Ascii, BodyLengthOf;
    var rest := Terminate(texts, SOH) + (TRAILER + sum + [SOH] + tail);
    assert s == (h + [SOH] + n) + ([SOH] + rest);
  }

  /** What stands behind the header. */
  lemma {:induction false} LayoutBody(s: string, h: string, n: string, texts: seq<string>, sum: string, tail: string)
    requires Layout(s, h, n, texts, sum, tail)
    ensures var b, body := |h| + |n| + 2, Terminate(texts, SOH);
            && b <= |s| && s[b..] == body + (TRAILER + sum + [SOH] + tail)
            && |s| == b + |body| + 7 + |tail|
  {
    hide Terminate, Ascii, BodyLengthOf;
    var rest := Terminate(texts, SOH) + (TRAILER + sum + [SOH] + tail);
    assert s == (h + [SOH] + n + [SOH]) + rest;
  }

  lemma HeaderLength(h: string, n: string)
    requires SOH !in h && SOH !in n && Ascii(h) && Ascii(n) && BodyLengthOf([h, n]).Some?
    ensures ExtractBodyLength(h + [SOH] + n).Some?
  {
    var prefix := h + [SOH] + n;
    assert Ascii(prefix);
    hide BodyLengthOf, Split;
    assert [h, n][1..] == [n];
    assert Join([h, n], SOH) == prefix;
    SplitJoin([h, n], SOH);
  }

  lemma {:induction false} HeaderSohs(s: string, h: string, n: string)
    requires SOH !in h && SOH !in n
    requires var e := |h| + 1 + |n|; e < |s| && s[..e] == h + [SOH] + n && s[e] == SOH
    ensures Find(s, [SOH], 0) == Some(|h|)
    ensures Find(s, [SOH], |h| + 1) == Some(|h| + 1 + |n|)
  {
    hide Find, At;
    var e, prefix := |h| + 1 + |n|, h + [SOH] + n;
    assert forall i :: 0 <= i < e ==> s[i] == prefix[i];
    FindChar(s, SOH, 0, |h|);
    FindChar(s, SOH, |h| + 1, e);
  }

  /** The first two SOH bytes of a message and its BodyLength are where they
      should be. */
  lemma {:induction false} HeaderFound(s: string, h: string, n: string, texts: seq<string>, sum: string, tail: string)
    requires Layout(s, h, n, texts, sum, tail)
    ensures Find(s, [SOH], 0) == Some(|h|)
    ensures Find(s, [SOH], |h| + 1) == Some(|h| + 1 + |n|)
    ensures ExtractBodyLength(s[..|h| + 1 + |n|]).Some?
  {
    hide Find, ExtractBodyLength, Terminate, Ascii, BodyLengthOf, At;
    assert SOH !in h && SOH !in n && Ascii(h) && Ascii(n) && BodyLengthOf([h, n]).Some?;
    hide Layout;
    LayoutHeader(s, h, n, texts, sum, tail);
    HeaderLength(h, n);
    HeaderSohs(s, h, n);
  }

  /** The trailer is found behind the body when the body does not contain it. */
  lemma {:induction false} TrailerFound(s: string, h: string, n: string, texts: seq<string>, sum: string, tail: string)
    requires Layout(s, h, n, texts, sum, tail) && NoTrailerInside(texts)
    ensures var b := |h| + |n| + 2;
            Find(s, TRAILER, b) == Some(b + |Terminate(texts, SOH)|)
  {
    hide Find, Layout, Terminate, NoTrailerInside, At;
    LayoutBody(s, h, n, texts, sum, tail);
    var body, rest := Terminate(texts, SOH), TRAILER + sum + [SOH] + tail;
    forall j: nat | j < |body|
      ensures !At(body + rest, TRAILER, j)
    {
      NotInTerminated(texts, rest, j);
    }
    AtSeam(body, sum, tail);
    FindShifted(s, |h| + |n| + 2, body + rest, TRAILER, |body|);
  }

  lemma AtSeam(body: string, sum: string, tail: string)
    ensures At(body + (TRAILER + sum + [SOH] + tail), TRAILER, |body|)
  {
    assert (body + (TRAILER + sum + [SOH] + tail))[|body|..|body| + 3] == TRAILER;
  }

  /** A first occurrence in what follows a position, found from there. */
  lemma {:induction false} FindShifted(s: string, b: nat, suffix: string, pat: string, i: nat)
    requires b <= |s| && s[b..] == suffix && At(suffix, pat, i)
    requires forall j: nat :: j < i ==> !At(suffix, pat, j)
    ensures Find(s, pat, b) == Some(b + i)
  {
    hide Find;
    AtShifted(s, b, suffix, pat, i);
    forall j: nat | b <= j < b + i
      ensures !At(s, pat, j)
    {
      AtShifted(s, b, suffix, pat, j - b);
    }
    hide At;
    FindIs(s, pat, b, b + i);
  }

  lemma {:induction false} AtShifted(s: string, b: nat, suffix: string, pat: string, i: nat)
    requires b <= |s| && s[b..] == suffix
    ensures At(suffix, pat, i) <==> At(s, pat, b + i)
  {
    if i + |pat| <= |suffix| {
      var l, r := s[b + i..b + i + |pat|], suffix[i..i + |pat|];
      assert |l| == |r| && forall k :: 0 <= k < |pat| ==> l[k] == s[b + i + k] == suffix[i + k] == r[k];
      assert l == r;
    }
  }

  /** A body that contains the trailer text makes the frame end inside it. */
  lemma {:induction false} CutEarly(s: string, h: string, n: string, texts: seq<string>, sum: string, tail: string)
    requires Layout(s, h, n, texts, sum, tail) && !NoTrailerInside(texts)
    ensures var b := |h| + |n| + 2;
            && TrailerEnd(s, b).Some?
            && TrailerEnd(s, b).value < b + |Terminate(texts, SOH)|
  {
    hide Layout, TrailerEnd, Terminate, Contains, At;
    LayoutBody(s, h, n, texts, sum, tail);
    var body, rest := Terminate(texts, SOH), TRAILER + sum + [SOH] + tail;
    var i := InTerminated(texts, rest);
    NotEmptyInside(texts);
    TerminateLastIs(texts);
    CutAt(s, |h| + |n| + 2, body, rest, i);
  }

  lemma NotEmptyInside(texts: seq<string>)
    requires !NoTrailerInside(texts)
    ensures |texts| > 0
  {
  }

  lemma CutAt(s: string, b: nat, body: string, rest: string, i: nat)
    requires b <= |s| && s[b..] == body + rest && |body| > 0 && body[|body| - 1] == SOH
    requires i + 3 < |body| && At(body + rest, TRAILER, i)
    ensures TrailerEnd(s, b).Some? && TrailerEnd(s, b).value < b + |body|
  {
    hide Find;
    var p := b + |body|;
    assert s[b + i..b + i + 3] == s[b..][i..i + 3];
    FindFirst(s, TRAILER, b, b + i);
    assert s[p - 1] == s[b..][|body| - 1] == body[|body| - 1];
    assert s[p - 1..p] == [SOH];
    FindFirst(s, [SOH], Find(s, TRAILER, b).value + 3, p - 1);
  }

  /** A message followed by anything is cut at its own end exactly when none of
      its body fields contains the trailer text. */
  lemma FrameEndIff(s: string, h: string, n: string, texts: seq<string>, sum: string, tail: string)
    requires Layout(s, h, n, texts, sum, tail)
    ensures FrameEnd(s) == Some(|s| - |tail|) <==> NoTrailerInside(texts)
  {
    hide ExtractBodyLength, Find, Terminate, NoTrailerInside, TrailerEnd, Ascii, BodyLengthOf, At;
    assert SOH !in sum && |sum| == 3;
    hide Layout;
    HeaderFound(s, h, n, texts, sum, tail);
    LayoutBody(s, h, n, texts, sum, tail);
    if NoTrailerInside(texts) {
      TrailerFound(s, h, n, texts, sum, tail);
      ClosedBySum(s, |h| + |n| + 2, Terminate(texts, SOH), sum, tail);
    } else {
      CutEarly(s, h, n, texts, sum, tail);
    }
  }

  /** Behind the true trailer the three characters of the sum and an SOH end the frame. */
  lemma {:induction false} ClosedBySum(s: string, b: nat, body: string, sum: string, tail: string)
    requires b <= |s| && s[b..] == body + (TRAILER + sum + [SOH] + tail) && |sum| == 3 && SOH !in sum
    requires Find(s, TRAILER, b) == Some(b + |body|)
    ensures TrailerEnd(s, b) == Some(b + |body| + 6)
  {
    hide Find;
    var p := b + |body|;
    assert s[p..] == TRAILER + sum + [SOH] + tail;
    assert forall i :: p + 3 <= i < p + 6 ==> s[i] == s[p..][i - p] == sum[i - p - 3];
    assert s[p + 6] == s[p..][6];
    FindChar(s, SOH, p + 3, p + 6);
  }

  lemma {:induction false} TerminateLastIs(texts: seq<string>)
    requires |texts| > 0
    ensures var s := Terminate(texts, SOH); |s| > 0 && s[|s| - 1] == SOH
  {
    if |texts| > 1 {
      TerminateLastIs(texts[1..]);
    }
  }

  lemma HeaderLengths(begin: string, n: int)
    ensures BodyLengthOf(["8=" + begin, "9=" + IntText(n)]).Some?
  {
    hide ParseInt, IntText;
    var h, t := "8=" + begin, "9=" + IntText(n);
    ParseIntText(n);
    assert t[..2] == "9=" && t[2..] == IntText(n);
    assert [h, t][1..] == [t];
    assert h[..2][0] == '8';
  }

  lemma AsciiParts(a: string, b: string)
    ensures Ascii(a + b) ==> Ascii(a) && Ascii(b)
  {
    assert forall i :: 0 <= i < |a| ==> (a + b)[i] == a[i];
    assert forall i :: 0 <= i < |b| ==> (a + b)[|a| + i] == b[i];
  }

  lemma {:induction false} LaidOut(w: string, h: string, n: string, texts: seq<string>, sum: string, tail: string)
    requires w == h + [SOH] + n + [SOH] + Terminate(texts, SOH) + TRAILER + sum + [SOH]
    requires Ascii(w) && SOH !in h && SOH !in n && SOH !in sum && |sum| == 3
    requires BodyLengthOf([h, n]).Some?
    ensures Layout(w + tail, h, n, texts, sum, tail)
  {
    hide BodyLengthOf, Terminate;
    var body := Terminate(texts, SOH);
    assert w + tail == h + [SOH] + (n + [SOH] + (body + (TRAILER + sum + [SOH] + tail)));
    assert w == h + ([SOH] + n + [SOH] + body + TRAILER + sum + [SOH]);
    assert w == (h + [SOH]) + (n + ([SOH] + body + TRAILER + sum + [SOH]));
    AsciiParts(h, [SOH] + n + [SOH] + body + TRAILER + sum + [SOH]);
    AsciiParts(h + [SOH], n + ([SOH] + body + TRAILER + sum + [SOH]));
    AsciiParts(n, [SOH] + body + TRAILER + sum + [SOH]);
  }

  lemma {:induction false} EncodedLayout(fs: Fields, tail: string)
    requires Ascii(EncodeStr(fs)) && SOH !in BeginString(fs)
    ensures Layout(EncodeStr(fs) + tail, "8=" + BeginString(fs), "9=" + IntText(BodyLength(fs)),
                   FieldTexts(BodyFields(fs)), Pad3(Checksum(Prefix(fs))), tail)
  {
    hide EncodeStr, Prefix, Checksum, BodyLength, BeginString, BodyLengthOf, BodyFields, Ascii, Layout;
    var h, n := "8=" + BeginString(fs), "9=" + IntText(BodyLength(fs));
    var texts, sum := FieldTexts(BodyFields(fs)), Pad3(Checksum(Prefix(fs)));
    EncodeLayout(fs);
    NoSohInIntText(BodyLength(fs));
    HeaderLengths(BeginString(fs), BodyLength(fs));
    assert h + [SOH] + n + [SOH]
        == "8=" + BeginString(fs) + [SOH] + "9=" + IntText(BodyLength(fs)) + [SOH];
    LaidOut(EncodeStr(fs), h, n, texts, sum, tail);
  }

  // ------------------------------------------------------------- end to end

  /** The messages that the wire carries faithfully: ASCII text, values without
      spaces and SOH, and no body field that looks like the trailer. */
  predicate Transmittable(fs: Fields) {
    && Unique(fs)
    && Ascii(EncodeStr(fs))
    && Clean(BeginString(fs)) && AllClean(BodyFields(fs))
    && NoTrailerInside(FieldTexts(BodyFields(fs)))
  }

  /** What the session hands to its handlers, frame by frame. */
  function Delivered(frames: seq<string>): seq<Fields> {
    seq(|frames|, i requires 0 <= i < |frames| => ParseBytes(frames[i]))
  }

  function AllPrinted(ms: seq<Fields>): seq<Fields> {
    seq(|ms|, i requires 0 <= i < |ms| => Printed(ms[i]))
  }

  function Wires(ms: seq<Fields>): seq<string> {
    seq(|ms|, i requires 0 <= i < |ms| => EncodeStr(ms[i]))
  }

  lemma {:induction false} FramedMessage(fs: Fields, tail: string)
    requires Ascii(EncodeStr(fs)) && SOH !in BeginString(fs)
    ensures FrameEnd(EncodeStr(fs) + tail) == Some(|EncodeStr(fs)|)
            <==> NoTrailerInside(FieldTexts(BodyFields(fs)))
  {
    hide FrameEnd, Layout, NoTrailerInside;
    EncodedLayout(fs, tail);
    FrameEndIff(EncodeStr(fs) + tail, "8=" + BeginString(fs), "9=" + IntText(BodyLength(fs)),
                FieldTexts(BodyFields(fs)), Pad3(Checksum(Prefix(fs))), tail);
  }

  lemma FrameOfMessage(fs: Fields, tail: string)
    requires Transmittable(fs)
    ensures FrameEnd(EncodeStr(fs) + tail) == Some(|EncodeStr(fs)|)
    ensures ParseBytes(EncodeStr(fs)) == Printed(fs)
  {
    hide FrameEnd, EncodeStr, Printed;
    FramedMessage(fs, tail);
    ParseEncodeIff(fs);
  }

  lemma {:induction false} DrainWires(ms: seq<Fields>)
    requires forall k :: 0 <= k < |ms| ==> Transmittable(ms[k])
    ensures Drain(Concat(Wires(ms))) == Drained(Wires(ms), "")
  {
    hide EncodeStr, FrameEnd, Transmittable, Printed, ParseBytes;
    if |ms| > 0 {
      var w, tail := EncodeStr(ms[0]), Concat(Wires(ms[1..]));
      assert Wires(ms)[1..] == Wires(ms[1..]);
      assert Concat(Wires(ms)) == w + tail;
      FrameOfMessage(ms[0], tail);
      assert (w + tail)[|w|..] == tail && (w + tail)[..|w|] == w;
      DrainWires(ms[1..]);
      assert Wires(ms) == [w] + Wires(ms[1..]);
    }
  }

  /** Printer, framer and parser together: a stream of transmittable messages,
      cut into reads in any way, is delivered message by message, in order,
      with all fields, and nothing is left in the buffer. */
  lemma {:induction false} StreamRoundTrip(ms: seq<Fields>, chunks: seq<string>)
    requires forall k :: 0 <= k < |ms| ==> Transmittable(ms[k])
    requires forall k :: 0 <= k < |chunks| ==> chunks[k] != ""
    requires Concat(chunks) == Concat(Wires(ms))
    ensures Delivered(ReadAll("", chunks).frames) == AllPrinted(ms)
    ensures ReadAll("", chunks).rest == ""
  {
    EmptyIsDry();
    hide FrameEnd, Transmittable, ReadAll, Drain, Delivered, AllPrinted, Wires, Concat;
    ChunkInvariance("", chunks);
    assert "" + Concat(chunks) == Concat(chunks);
    DrainWires(ms);
    DeliveredWires(ms);
  }

  lemma EmptyIsDry()
    ensures FrameEnd("").None?
  {
  }

  lemma DeliveredWires(ms: seq<Fields>)
    requires forall k :: 0 <= k < |ms| ==> Transmittable(ms[k])
    ensures Delivered(Wires(ms)) == AllPrinted(ms)
  {
    hide EncodeStr, FrameEnd, Transmittable, Printed, ParseBytes;
    forall k | 0 <= k < |ms|
      ensures ParseBytes(EncodeStr(ms[k])) == Printed(ms[k])
    {
      FrameOfMessage(ms[k], "");
    }
  }

  /** A buffer drained into one frame and nothing else was that frame. */
  lemma {:induction false} OneFrame(w: string)
    requires |Drain(w).frames| == 1 && Drain(w).rest == ""
    ensures Drain(w).frames[0] == w && FrameEnd(w) == Some(|w|)
  {
    hide FrameEnd;
    var d := Drain(w);
    DrainConserves(w);
    assert Concat(d.frames) == d.frames[0] + Concat(d.frames[1..]);
    assert w[..FrameEnd(w).value] == w;
  }

  /** One message arrives whole, alone and unchanged exactly when it is
      transmittable. */
  lemma RoundTripIff(fs: Fields)
    requires Unique(fs) && Ascii(EncodeStr(fs))
    ensures Transmittable(fs)
            <==> var d := Drain(EncodeStr(fs));
                 Delivered(d.frames) == [Printed(fs)] && d.rest == ""
  {
    hide EncodeStr, FrameEnd, Printed, Parse, Unique, Ascii, NoTrailerInside;
    var w := EncodeStr(fs);
    var d := Drain(w);
    assert w + "" == w;
    if Transmittable(fs) {
      DrainWires([fs]);
      assert Wires([fs]) == [w] && Concat([w]) == w + "";
      FrameOfMessage(fs, "");
      assert Delivered([w]) == [ParseBytes(w)];
    }
    if Delivered(d.frames) == [Printed(fs)] && d.rest == "" {
      assert |Delivered(d.frames)| == 1;
      OneFrame(w);
      assert Delivered(d.frames)[0] == ParseBytes(w);
      ParseEncodeIff(fs);
      FramedMessage(fs, "");
    }
  }

  /** Which fields look like the trailer: those whose tag ends in 10, and those
      whose value contains it. */
  lemma LooksLikeTrailerIff(f: Field)
    ensures Contains(FieldText(f), TRAILER)
            <==> (if f.tag < 0 then -f.tag else f.tag) % 100 == 10 || Contains(f.value, TRAILER)
  {
    var t, s := IntText(f.tag), FieldText(f);
    var n := |t|;
    hide IntText, FieldText;
    assert s == t + ['='] + f.value by {
      FieldTextIs(f);
    }
    NoSohInIntText(f.tag);
    EndsInTen(f.tag);
    forall i: nat | i <= |s| && At(s, TRAILER, i)
      ensures Contains(f.value, TRAILER) || (n >= 2 && t[n - 2] == '1' && t[n - 1] == '0')
    {
      TrailerLies(t, f.value, i);
    }
    if n >= 2 && t[n - 2] == '1' && t[n - 1] == '0' {
      assert s[n - 2..n - 2 + 3] == TRAILER;
      assert At(s, TRAILER, n - 2);
    }
    forall i: nat | i <= |f.value| && At(f.value, TRAILER, i)
      ensures At(s, TRAILER, n + 1 + i)
    {
      assert s[n + 1 + i..n + 1 + i + 3] == f.value[i..i + 3];
    }
  }

  lemma FieldTextIs(f: Field)
    ensures FieldText(f) == IntText(f.tag) + ['='] + f.value
  {
  }

  /** A trailer in the text of a field ends at the first '=' or lies in the value. */
  lemma TrailerLies(t: string, value: string, i: nat)
    requires '=' !in t
    requires i <= |t + ['='] + value| && At(t + ['='] + value, TRAILER, i)
    ensures Contains(value, TRAILER) || (|t| >= 2 && t[|t| - 2] == '1' && t[|t| - 1] == '0')
  {
    var s, n := t + ['='] + value, |t|;
    assert s[i..i + 3][0] == s[i] == '1' && s[i..i + 3][1] == s[i + 1] == '0' && s[i..i + 3][2] == s[i + 2] == '=';
    if n < i + 2 {
      assert s[n] == '=';
      assert s[i..i + 3] == value[i - n - 1..i - n - 1 + 3];
      assert At(value, TRAILER, i - n - 1);
    }
  }

  lemma EndsInTen(n: int)
    ensures var t := IntText(n);
            (|t| >= 2 && t[|t| - 2] == '1' && t[|t| - 1] == '0') <==> (if n < 0 then -n else n) % 100 == 10
  {
    if n < 0 {
      NatEndsInTen(-n);
      assert IntText(n) == ['-'] + NatText(-n);
    } else {
      NatEndsInTen(n);
    }
  }

  lemma {:induction false} NatEndsInTen(m: nat)
    ensures var t := NatText(m);
            (|t| >= 2 && t[|t| - 2] == '1' && t[|t| - 1] == '0') <==> m % 100 == 10
  {
    if m >= 10 {
      assert NatText(m) == NatText(m / 10) + [DigitChar(m % 10)];
      LastDigit(m / 10);
      hide NatText;
      TwoDigits(m);
    }
  }

  lemma TwoDigits(m: nat)
    ensures m % 100 == 10 * (m / 10 % 10) + m % 10
  {
  }

  lemma {:induction false} LastDigit(m: nat)
    ensures var t := NatText(m); t[|t| - 1] == DigitChar(m % 10)
  {
  }
}
