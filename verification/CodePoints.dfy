// UTF-8 in string literals: what the bytes of an unescaped literal encode, and
// how the string functions cut them into code points.
module CodePoints {
  import opened Numerals
  import opened Options
  import opened StringLiterals

  predicate IsContinuation(c: Byte) { 0x80 <= c < 0xC0 }

  function AtLeast(low: nat, cp: nat): Option<nat> { if cp >= low then Some(cp) else None }

  function Six(high: nat, c: Byte): nat
    requires IsContinuation(c)
  {
    64 * high + (c - 0x80)
  }

  /** The code point of a byte sequence, as section 3 of RFC 3629 reads it: the
      lead byte gives the length, every further byte six bits, and no sequence
      is longer than needed. */
  function Decoded(bs: seq<Byte>): Option<nat> {
    if |bs| == 1 && bs[0] < 0x80 then Some(bs[0])
    else if |bs| == 2 && 0xC0 <= bs[0] < 0xE0 && IsContinuation(bs[1]) then
      AtLeast(0x80, Six(bs[0] - 0xC0, bs[1]))
    else if |bs| == 3 && 0xE0 <= bs[0] < 0xF0 && IsContinuation(bs[1]) && IsContinuation(bs[2]) then
      AtLeast(0x800, Six(Six(bs[0] - 0xE0, bs[1]), bs[2]))
    else if |bs| == 4 && 0xF0 <= bs[0] < 0xF8 && IsContinuation(bs[1]) && IsContinuation(bs[2]) && IsContinuation(bs[3]) then
      AtLeast(0x1_0000, Six(Six(Six(bs[0] - 0xF0, bs[1]), bs[2]), bs[3]))
    else None
  }

  /** The bytes appended for a number are its encoding and nothing else is. */
  lemma Utf8Exact(bs: seq<Byte>, cp: nat)
    requires cp < 0x10_0000
    ensures Decoded(bs) == Some(cp) <==> bs == Utf8(cp)
  {
    Utf8Decodes(cp);
    if Decoded(bs) == Some(cp) {
      DecodedEncodes(bs, cp);
    }
  }

  lemma Utf8Decodes(cp: nat)
    requires cp < 0x10_0000
    ensures Decoded(Utf8(cp)) == Some(cp)
  {
    SixBits(cp);
    SixBits(cp / 64);
    SixBits(cp / 4096);
  }

  lemma SixBits(v: nat)
    ensures v == 64 * (v / 64) + v % 64 && 0 <= v % 64 < 64 && v / 64 / 64 == v / 4096 && v / 4096 / 64 == v / 262144
  {
  }

  lemma SixRead(high: nat, c: Byte)
    requires IsContinuation(c)
    ensures Six(high, c) / 64 == high && 0x80 + Six(high, c) % 64 == c
  {
  }

  lemma DecodedEncodes(bs: seq<Byte>, cp: nat)
    requires Decoded(bs) == Some(cp) && cp < 0x10_0000
    ensures bs == Utf8(cp)
  {
    hide Six;
    SixBits(cp);
    if |bs| == 1 {
      assert bs == [bs[0]];
    } else if |bs| == 2 {
      SixRead(bs[0] - 0xC0, bs[1]);
      assert bs == [bs[0], bs[1]];
    } else if |bs| == 3 {
      var a := Six(bs[0] - 0xE0, bs[1]);
      SixRead(bs[0] - 0xE0, bs[1]);
      SixRead(a, bs[2]);
      assert bs == [bs[0], bs[1], bs[2]];
    } else {
      var a := Six(bs[0] - 0xF0, bs[1]);
      var b := Six(a, bs[2]);
      SixRead(bs[0] - 0xF0, bs[1]);
      SixRead(a, bs[2]);
      SixRead(b, bs[3]);
      assert bs == [bs[0], bs[1], bs[2], bs[3]];
    }
  }

  // ------------------------------------------------------------------
  // Cutting a string into code points
  // ------------------------------------------------------------------

  /** utf8CodePointWidth; zero for a byte that starts no sequence. */
  function WidthOf(lead: Byte): nat {
    if lead < 0x80 then 1
    else if lead / 32 == 6 then 2
    else if lead / 16 == 14 then 3
    else if lead / 8 == 30 then 4
    else 0
  }

  predicate AllContinuations(s: seq<Byte>) { forall i | 0 <= i < |s| :: IsContinuation(s[i]) }

  function Cut(s: seq<Byte>): Option<seq<seq<Byte>>>
    decreases |s|
  {
    if s == [] then Some([])
    else
      var w := WidthOf(s[0]);
      if w == 0 || w > |s| || !AllContinuations(s[1..w]) then None
      else
        match Cut(s[w..])
        case None => None
        case Some(rest) => Some([s[..w]] + rest)
  }

  /** A lead byte and the continuations it announces. */
  predicate IsSequence(p: seq<Byte>) {
    && p != [] && AllContinuations(p[1..])
    && (if |p| == 1 then p[0] < 0x80
        else if |p| == 2 then 0xC0 <= p[0] < 0xE0
        else if |p| == 3 then 0xE0 <= p[0] < 0xF0
        else |p| == 4 && 0xF0 <= p[0] < 0xF8)
  }

  predicate AllSequences(ps: seq<seq<Byte>>) { forall i | 0 <= i < |ps| :: IsSequence(ps[i]) }

  function Joined(ps: seq<seq<Byte>>): seq<Byte> { if ps == [] then [] else ps[0] + Joined(ps[1..]) }

  lemma WidthIsLength(p: seq<Byte>)
    requires p != []
    ensures IsSequence(p) <==> |p| == WidthOf(p[0]) && AllContinuations(p[1..])
  {
  }

  /** The parts are the only sequences the string consists of; without such
      parts there is no result. */
  lemma {:induction false} CutExact(s: seq<Byte>, ps: seq<seq<Byte>>)
    ensures Cut(s) == Some(ps) <==> AllSequences(ps) && Joined(ps) == s
    decreases |ps|
  {
    hide IsSequence, WidthOf, AllContinuations;
    if ps == [] {
    } else if s == [] {
      if AllSequences(ps) {
        SequenceNonempty(ps[0]);
      }
    } else {
      var p, rest := ps[0], ps[1..];
      var w := WidthOf(s[0]);
      assert ps == [p] + rest;
      assert AllSequences(ps) ==> IsSequence(p) && AllSequences(rest);
      if Cut(s) == Some(ps) {
        CutExact(s[w..], rest);
        assert p == s[..w] && p[1..] == s[1..w];
        WidthIsLength(p);
        assert s == p + s[w..];
        forall i | 0 <= i < |ps|
          ensures IsSequence(ps[i])
        {
          assert i > 0 ==> ps[i] == rest[i - 1];
        }
      }
      if AllSequences(ps) && Joined(ps) == s {
        SequenceNonempty(p);
        WidthIsLength(p);
        assert s[0] == p[0] && s[..w] == p && s[1..w] == p[1..] && s[w..] == Joined(rest);
        CutExact(s[w..], rest);
      }
    }
  }

  lemma SequenceNonempty(p: seq<Byte>)
    requires IsSequence(p)
    ensures p != [] && !IsContinuation(p[0]) && AllContinuations(p[1..])
  {
  }

  /** utf8CodePoints. */
  method Utf8CodePoints(s: seq<Byte>) returns (result: Option<seq<seq<Byte>>>)
    ensures result == Cut(s)
    ensures result.None? <==> !exists ps :: Parts(ps, s)
    ensures result.Some? ==> Parts(result.value, s)
  {
    hide Parts, WidthOf, AllContinuations, Cut;
    CutIsUnique(s);
    var parts: seq<seq<Byte>> := [];
    var index := 0;
    assert s[0..] == s;
    OntoNothing(Cut(s));
    while index < |s|
      invariant index <= |s|
      invariant Cut(s) == Onto(parts, Cut(s[index..]))
    {
      CutOnce(s, index);
      var width := WidthOf(s[index]);
      if width == 0 || index + width > |s| {
        return None;
      }
      var continued := Continued(s, index, width);
      if !continued {
        return None;
      }
      OntoOnto(parts, s[index..index + width], Cut(s[index + width..]));
      parts := parts + [s[index..index + width]];
      index := index + width;
    }
    NothingLeft(s, parts);
    return Some(parts);
  }

  /** The loop over the bytes after a lead byte. */
  method Continued(s: seq<Byte>, index: nat, width: nat) returns (ok: bool)
    requires 0 < width && index + width <= |s|
    ensures ok <==> AllContinuations(s[index + 1..index + width])
  {
    hide IsContinuation;
    ghost var all := s[index + 1..index + width];
    for offset := 1 to width
      invariant forall i | 0 <= i < offset - 1 :: IsContinuation(all[i])
    {
      assert all[offset - 1] == s[index + offset];
      if !IsContinuation(s[index + offset]) {
        return false;
      }
    }
    return true;
  }

  ghost function Onto(parts: seq<seq<Byte>>, rest: Option<seq<seq<Byte>>>): Option<seq<seq<Byte>>> {
    match rest
    case None => None
    case Some(ps) => Some(parts + ps)
  }

  lemma OntoNothing(rest: Option<seq<seq<Byte>>>)
    ensures Onto([], rest) == rest
  {
    if rest.Some? {
      assert [] + rest.value == rest.value;
    }
  }

  lemma OntoOnto(parts: seq<seq<Byte>>, p: seq<Byte>, rest: Option<seq<seq<Byte>>>)
    ensures Onto(parts, Onto([p], rest)) == Onto(parts + [p], rest)
  {
    if rest.Some? {
      assert parts + ([p] + rest.value) == parts + [p] + rest.value;
    }
  }

  /** One part off the front of a suffix. */
  lemma CutOnce(s: seq<Byte>, index: nat)
    requires index < |s|
    ensures var w := WidthOf(s[index]);
            Cut(s[index..]) ==
            if w == 0 || index + w > |s| || !AllContinuations(s[index + 1..index + w]) then None
            else Onto([s[index..index + w]], Cut(s[index + w..]))
  {
    hide WidthOf, AllContinuations;
    var rest, w := s[index..], WidthOf(s[index]);
    if w != 0 && index + w <= |s| {
      assert rest[1..w] == s[index + 1..index + w];
      assert rest[w..] == s[index + w..] && rest[..w] == s[index..index + w];
    }
  }

  lemma NothingLeft(s: seq<Byte>, parts: seq<seq<Byte>>)
    ensures Onto(parts, Cut(s[|s|..])) == Some(parts)
  {
    assert parts + [] == parts;
  }

  ghost predicate Parts(ps: seq<seq<Byte>>, s: seq<Byte>) { AllSequences(ps) && Joined(ps) == s }

  lemma CutIsUnique(s: seq<Byte>)
    ensures Cut(s).None? <==> !exists ps :: Parts(ps, s)
    ensures Cut(s).Some? ==> Parts(Cut(s).value, s)
  {
    hide AllSequences, Joined, Cut;
    if Cut(s).Some? {
      var ps := Cut(s).value;
      CutExact(s, ps);
      assert Parts(ps, s);
    } else {
      forall ps: seq<seq<Byte>>
        ensures !Parts(ps, s)
      {
        CutExact(s, ps);
      }
    }
  }

  /** The number of bytes that continue nothing. */
  function Leads(s: seq<Byte>): nat {
    if s == [] then 0 else Leads(s[..|s| - 1]) + if IsContinuation(s[|s| - 1]) then 0 else 1
  }

  lemma {:induction false} LeadsJoined(a: seq<Byte>, b: seq<Byte>)
    ensures Leads(a + b) == Leads(a) + Leads(b)
    decreases |b|
  {
    if b == [] {
      assert a + b == a;
    } else {
      assert (a + b)[..|a + b| - 1] == a + b[..|b| - 1];
      LeadsJoined(a, b[..|b| - 1]);
    }
  }

  lemma {:induction false} NoLeads(s: seq<Byte>)
    requires AllContinuations(s)
    ensures Leads(s) == 0
  {
    if s != [] {
      NoLeads(s[..|s| - 1]);
    }
  }

  /** Wherever a string can be cut, its length is the number of its parts. */
  lemma {:induction false} LengthIsCount(ps: seq<seq<Byte>>)
    requires AllSequences(ps)
    ensures Leads(Joined(ps)) == |ps|
  {
    hide IsSequence, IsContinuation;
    if ps != [] {
      var p := ps[0];
      LengthIsCount(ps[1..]);
      LeadsJoined(p, Joined(ps[1..]));
      SequenceNonempty(p);
      NoLeads(p[1..]);
      LeadsJoined([p[0]], p[1..]);
      assert [p[0]] + p[1..] == p;
      assert Leads([p[0]]) == Leads([p[0]][..0]) + 1;
    }
  }

  /** utf8Length. */
  method Utf8Length(s: seq<Byte>) returns (length: nat)
    ensures length == Leads(s)
    ensures forall ps :: Parts(ps, s) ==> length == |ps|
  {
    length := 0;
    for i := 0 to |s|
      invariant length == Leads(s[..i])
    {
      assert s[..i + 1][..i] == s[..i];
      if !IsContinuation(s[i]) {
        length := length + 1;
      }
    }
    assert s[..|s|] == s;
    forall ps | Parts(ps, s)
      ensures length == |ps|
    {
      LengthIsCount(ps);
    }
  }

  // ------------------------------------------------------------------
  // Literals made of escapes
  // ------------------------------------------------------------------

  /** A number written as an escape, each digit in either case. */
  datatype Escaped = InBraces(v: nat, upper: seq<bool>) | FourDigits(v: nat, upper: seq<bool>)

  predicate EscapeOk(e: Escaped) {
    && e.v < Pow16(|e.upper|)
    && if e.InBraces? then 1 <= |e.upper| <= 5 else |e.upper| == 4
  }

  predicate AllEscapesOk(es: seq<Escaped>) { forall i | 0 <= i < |es| :: EscapeOk(es[i]) }

  function Written(es: seq<Escaped>): seq<Byte> {
    if es == [] then []
    else
      (match es[0]
       case InBraces(v, upper) => BracedForm(v, upper)
       case FourDigits(v, upper) => PlainForm(v, upper))
      + Written(es[1..])
  }

  lemma Utf8IsSequence(cp: nat)
    requires cp < 0x10_0000
    ensures IsSequence(Utf8(cp))
  {
    var p := Utf8(cp);
    forall i | 0 <= i < |p[1..]|
      ensures IsContinuation(p[1..][i])
    {
      assert p[1..][i] == p[i + 1];
    }
  }

  /** A literal written in escapes of any form denotes its numbers: unescaped
      and cut into code points it has as many parts as escapes, and each part
      is the encoding of its number. */
  lemma {:induction false} EscapesDenote(es: seq<Escaped>)
    requires AllEscapesOk(es)
    ensures var cut := Cut(Unescape(Written(es)));
            && cut.Some? && |cut.value| == |es|
            && forall i | 0 <= i < |es| :: Decoded(cut.value[i]) == Some(es[i].v)
    decreases |es|
  {
    hide Pow16, Decoded, Utf8, IsSequence, Cut, Unescape, Joined, AllSequences;
    var ps := EscapedParts(es);
    CutExact(Unescape(Written(es)), ps);
  }

  lemma {:induction false} EscapedParts(es: seq<Escaped>) returns (ps: seq<seq<Byte>>)
    requires AllEscapesOk(es)
    ensures |ps| == |es| && AllSequences(ps) && Joined(ps) == Unescape(Written(es))
    ensures forall i | 0 <= i < |es| :: Decoded(ps[i]) == Some(es[i].v)
    decreases |es|
  {
    ps := [];
    if es == [] {
      NothingToRead();
    } else {
      hide Decoded, Utf8, IsSequence, Unescape, BracedForm, PlainForm;
      var e := es[0];
      assert EscapeOk(e);
      var rest := EscapedParts(es[1..]);
      FiveDigits(e.v, |e.upper|);
      if e.InBraces? {
        BracedUnescapes(e.v, e.upper, Written(es[1..]));
      } else {
        PlainUnescapes(e.v, e.upper, Written(es[1..]));
      }
      Utf8Decodes(e.v);
      Utf8IsSequence(e.v);
      ps := [Utf8(e.v)] + rest;
      assert ps[1..] == rest;
    }
  }
}
