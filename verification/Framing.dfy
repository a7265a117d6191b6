/** What every self-delimiting record format has in common, whatever its header: a parser and an
    encoder that agree give crash recovery, exact re-encoding and detection of damage. Journal,
    TCP frames and replay files are instances. */
module Framing {
  import opened Bytes
  import opened Wrappers

  /** Takes one record off the front of the bytes: the record and how many bytes it took. */
  type Parser<!R> = seq<byte> -> Option<(R, nat)>
  type Encoder<!R> = R -> seq<byte>

  ghost predicate ParsesBack<R>(parse: Parser<R>, encode: Encoder<R>, r: R, rest: seq<byte>) {
    encode(r) != [] && parse(encode(r) + rest) == Some((r, |encode(r)|))
  }

  ghost predicate ParsesExactly<R>(parse: Parser<R>, encode: Encoder<R>, valid: R -> bool, s: seq<byte>) {
    parse(s).Some? ==> var (r, n) := parse(s).value; valid(r) && 0 < n <= |s| && encode(r) == s[..n]
  }

  /** Parser and encoder agree: what is encoded parses back whatever follows it, and what parses is
      exactly the encoding of the result. */
  ghost predicate Agree<R(!new)>(parse: Parser<R>, encode: Encoder<R>, valid: R -> bool) {
    && (forall r: R, rest: seq<byte> :: valid(r) ==> ParsesBack(parse, encode, r, rest))
    && (forall s: seq<byte> :: ParsesExactly(parse, encode, valid, s))
  }

  /** All records up to the first one that does not parse. */
  function DecodeAll<R>(parse: Parser<R>, s: seq<byte>): seq<R>
    decreases |s|
  {
    match parse(s)
    case None => []
    case Some((r, n)) => if 0 < n <= |s| then [r] + DecodeAll(parse, s[n..]) else []
  }

  function EncodeAll<R>(encode: Encoder<R>, rs: seq<R>): seq<byte> {
    if rs == [] then [] else encode(rs[0]) + EncodeAll(encode, rs[1..])
  }

  ghost predicate AllValid<R>(valid: R -> bool, rs: seq<R>) {
    forall i :: 0 <= i < |rs| ==> valid(rs[i])
  }

  /** How many leading records lie wholly in the first `cut` bytes of their encoding. */
  function WholeBefore<R>(encode: Encoder<R>, rs: seq<R>, cut: nat): (k: nat)
    ensures k <= |rs|
  {
    if rs == [] || cut < |encode(rs[0])| then 0 else 1 + WholeBefore(encode, rs[1..], cut - |encode(rs[0])|)
  }

  lemma {:induction false} EncodeAllAppends<R>(encode: Encoder<R>, rs: seq<R>, more: seq<R>)
    ensures EncodeAll(encode, rs + more) == EncodeAll(encode, rs) + EncodeAll(encode, more)
  {
    if rs == [] {
      assert rs + more == more;
    } else {
      assert (rs + more)[1..] == rs[1..] + more;
      EncodeAllAppends(encode, rs[1..], more);
    }
  }

  lemma EncodeOne<R>(encode: Encoder<R>, r: R)
    ensures EncodeAll(encode, [r]) == encode(r)
  {
    assert EncodeAll(encode, [r][1..]) == [];
  }

  lemma EncodeOneMore<R>(encode: Encoder<R>, rs: seq<R>, r: R)
    ensures EncodeAll(encode, rs + [r]) == EncodeAll(encode, rs) + encode(r)
  {
    EncodeAllAppends(encode, rs, [r]);
    EncodeOne(encode, r);
  }

  /** WholeBefore really counts: record k - 1 ends by the cut and record k does not. */
  lemma {:induction false} WholeBeforeIsExact<R>(encode: Encoder<R>, rs: seq<R>, cut: nat)
    ensures var k := WholeBefore(encode, rs, cut);
      && |EncodeAll(encode, rs[..k])| <= cut
      && (k < |rs| ==> cut < |EncodeAll(encode, rs[..k + 1])|)
  {
    var k := WholeBefore(encode, rs, cut);
    if rs == [] {
    } else if cut < |encode(rs[0])| {
      assert rs[..1] == [rs[0]];
      EncodeOne(encode, rs[0]);
    } else {
      WholeBeforeIsExact(encode, rs[1..], cut - |encode(rs[0])|);
      assert rs[..k][1..] == rs[1..][..k - 1];
      if k < |rs| { assert rs[..k + 1][1..] == rs[1..][..k]; }
    }
  }

  /** Parsing is local: bytes behind the record do not change it. */
  lemma ParseExtends<R(!new)>(parse: Parser<R>, encode: Encoder<R>, valid: R -> bool, s: seq<byte>, more: seq<byte>)
    requires Agree(parse, encode, valid) && parse(s).Some?
    ensures parse(s + more) == parse(s)
  {
    var (r, n) := parse(s).value;
    assert ParsesExactly(parse, encode, valid, s);
    assert s + more == encode(r) + (s[n..] + more);
    assert ParsesBack(parse, encode, r, s[n..] + more);
  }

  /** No proper prefix of an encoding parses, so a torn record is never mistaken for a whole one. */
  lemma ProperPrefixFails<R(!new)>(parse: Parser<R>, encode: Encoder<R>, valid: R -> bool, r: R, k: nat)
    requires Agree(parse, encode, valid) && valid(r) && k < |encode(r)|
    ensures parse(encode(r)[..k]) == None
  {
    var torn, whole := encode(r)[..k], encode(r);
    assert whole + [] == whole && torn + whole[k..] == whole;
    assert ParsesBack(parse, encode, r, []);
    assert ParsesExactly(parse, encode, valid, torn);
    if parse(torn).Some? {
      ParseExtends(parse, encode, valid, torn, whole[k..]);
    }
  }

  lemma DecodeOne<R(!new)>(parse: Parser<R>, encode: Encoder<R>, valid: R -> bool, r: R, rest: seq<byte>)
    requires Agree(parse, encode, valid) && valid(r)
    ensures DecodeAll(parse, encode(r) + rest) == [r] + DecodeAll(parse, rest)
  {
    assert ParsesBack(parse, encode, r, rest);
    assert (encode(r) + rest)[|encode(r)|..] == rest;
  }

  /** Decoding undoes encoding, and goes on with whatever follows. */
  lemma {:induction false} DecodeEncode<R(!new)>(
      parse: Parser<R>, encode: Encoder<R>, valid: R -> bool, rs: seq<R>, tail: seq<byte>)
    requires Agree(parse, encode, valid) && AllValid(valid, rs)
    ensures DecodeAll(parse, EncodeAll(encode, rs) + tail) == rs + DecodeAll(parse, tail)
  {
    hide DecodeAll, Agree;
    if rs == [] {
      assert EncodeAll(encode, rs) + tail == tail;
      assert rs + DecodeAll(parse, tail) == DecodeAll(parse, tail);
    } else {
      var rest := EncodeAll(encode, rs[1..]) + tail;
      assert EncodeAll(encode, rs) + tail == encode(rs[0]) + rest;
      DecodeOne(parse, encode, valid, rs[0], rest);
      DecodeEncode(parse, encode, valid, rs[1..], tail);
      assert rs + DecodeAll(parse, tail) == [rs[0]] + (rs[1..] + DecodeAll(parse, tail));
    }
  }

  lemma DecodeNothing<R(!new)>(parse: Parser<R>, encode: Encoder<R>, valid: R -> bool)
    requires Agree(parse, encode, valid)
    ensures DecodeAll(parse, []) == []
  {
    assert ParsesExactly(parse, encode, valid, []);
  }

  lemma DecodeStops<R>(parse: Parser<R>, s: seq<byte>)
    requires parse(s) == None
    ensures DecodeAll(parse, s) == []
  {
  }

  /** Cutting an encoded list anywhere leaves exactly the records wholly before the cut. */
  lemma {:induction false} DecodeTruncated<R(!new)>(
      parse: Parser<R>, encode: Encoder<R>, valid: R -> bool, rs: seq<R>, cut: nat)
    requires Agree(parse, encode, valid) && AllValid(valid, rs)
    requires cut <= |EncodeAll(encode, rs)|
    ensures DecodeAll(parse, EncodeAll(encode, rs)[..cut]) == rs[..WholeBefore(encode, rs, cut)]
  {
    hide DecodeAll, Agree;
    if rs == [] {
      DecodeNothing(parse, encode, valid);
    } else {
      var first := encode(rs[0]);
      var s := EncodeAll(encode, rs)[..cut];
      if cut < |first| {
        assert s == first[..cut];
        ProperPrefixFails(parse, encode, valid, rs[0], cut);
        DecodeStops(parse, s);
      } else {
        var rest := EncodeAll(encode, rs[1..])[..cut - |first|];
        assert s == first + rest;
        DecodeOne(parse, encode, valid, rs[0], rest);
        DecodeTruncated(parse, encode, valid, rs[1..], cut - |first|);
        var k := WholeBefore(encode, rs[1..], cut - |first|);
        assert rs[..k + 1] == [rs[0]] + rs[1..][..k];
      }
    }
  }

  /** Behind whole records, part of one more record adds nothing, and all of it adds that record. */
  lemma DecodeTorn<R(!new)>(
      parse: Parser<R>, encode: Encoder<R>, valid: R -> bool, rs: seq<R>, r: R, torn: seq<byte>)
    requires Agree(parse, encode, valid) && AllValid(valid, rs)
    requires torn != [] ==> valid(r) && torn <= encode(r)
    ensures DecodeAll(parse, EncodeAll(encode, rs) + torn) == if torn != [] && torn == encode(r) then rs + [r] else rs
  {
    DecodeEncode(parse, encode, valid, rs, torn);
    if torn == [] {
      assert ParsesExactly(parse, encode, valid, torn);
    } else if torn == encode(r) {
      EncodeOne(encode, r);
      DecodeEncode(parse, encode, valid, [r], []);
      assert ParsesExactly(parse, encode, valid, []);
      assert torn + [] == torn;
    } else {
      assert encode(r)[..|torn|] == torn;
      ProperPrefixFails(parse, encode, valid, r, |torn|);
    }
  }

  lemma DecodeFront<R>(parse: Parser<R>, front: seq<byte>, r: Option<R>, rest: seq<byte>)
    requires front != [] && parse(front + rest) == if r == None then None else Some((r.value, |front|))
    ensures DecodeAll(parse, front + rest) == if r == None then [] else [r.value] + DecodeAll(parse, rest)
  {
    assert (front + rest)[|front|..] == rest;
  }

  lemma Regroup<T>(a: seq<T>, b: seq<T>, c: seq<T>)
    ensures a + b + c == a + (b + c)
  {
  }

  /** A damaged record behind whole ones: if it no longer parses, decoding stops right before it; if it still
      parses, as whatever, decoding goes on behind it. */
  lemma DecodeDamaged<R(!new)>(
      parse: Parser<R>, encode: Encoder<R>, valid: R -> bool, rs: seq<R>,
      damaged: seq<byte>, altered: Option<R>, rest: seq<byte>)
    requires Agree(parse, encode, valid) && AllValid(valid, rs) && damaged != []
    requires parse(damaged + rest) == if altered == None then None else Some((altered.value, |damaged|))
    ensures DecodeAll(parse, EncodeAll(encode, rs) + damaged + rest)
      == rs + if altered == None then [] else [altered.value] + DecodeAll(parse, rest)
  {
    DecodeEncode(parse, encode, valid, rs, damaged + rest);
    DecodeFront(parse, damaged, altered, rest);
    Regroup(EncodeAll(encode, rs), damaged, rest);
  }

  /** On arbitrary bytes: what was decoded re-encodes to a prefix of the input, all of it valid, and
      decoding stopped only because the rest does not parse. */
  lemma {:induction false} ReencodedIsPrefix<R(!new)>(
      parse: Parser<R>, encode: Encoder<R>, valid: R -> bool, s: seq<byte>)
    requires Agree(parse, encode, valid)
    ensures var rs := DecodeAll(parse, s);
      && AllValid(valid, rs)
      && EncodeAll(encode, rs) <= s
      && parse(s[|EncodeAll(encode, rs)|..]) == None
    decreases |s|
  {
    assert ParsesExactly(parse, encode, valid, s);
    if parse(s).Some? {
      var (r, n) := parse(s).value;
      ReencodedIsPrefix(parse, encode, valid, s[n..]);
      var rest := DecodeAll(parse, s[n..]);
      assert DecodeAll(parse, s)[1..] == rest;
      assert s == encode(r) + s[n..];
      assert s[n..][|EncodeAll(encode, rest)|..] == s[n + |EncodeAll(encode, rest)|..];
    } else {
      assert s[0..] == s;
    }
  }
}
