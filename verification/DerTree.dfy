/** Definite-length tag-length-value encoding (X.690): trees, their encoding as the generator writes
    it, and a reader that knows nothing about the generator. */
module DerTree {
  import opened Common

  /** A primitive value, or a constructed one. */
  datatype Tlv =
    | Leaf(tag: byte, content: seq<byte>)
    | Node(tag: byte, children: seq<Tlv>)

  /** Bit 6 of the identifier octet tells constructed from primitive; tag numbers from 31 on would
      need more octets (section 8.1.2). */
  predicate Constructed(tag: byte) {
    tag / 32 % 2 == 1
  }

  predicate WellTagged(t: Tlv) {
    && t.tag % 32 != 31
    && match t
       case Leaf(tag, _) => !Constructed(tag)
       case Node(tag, children) => Constructed(tag) && forall c :: c in children ==> WellTagged(c)
  }

  // ---- Writing --------------------------------------------------------------------------------

  /** `enc_len` */
  function EncLen(n: nat): (s: seq<byte>)
    ensures 1 <= |s| <= 3
  {
    if n < 0x80 then [n]
    else if n < 0x100 then [0x81, n]
    else [0x82, n / 256 % 256, n % 256]
  }

  function Encode(t: Tlv): (s: seq<byte>)
    decreases t, 0
  {
    var body := match t case Leaf(_, content) => content case Node(_, children) => EncodeAll(children);
    [t.tag] + (EncLen(|body|) + body)
  }

  function EncodeAll(ts: seq<Tlv>): (s: seq<byte>)
    decreases ts
  {
    if ts == [] then [] else Encode(ts[0]) + EncodeAll(ts[1..])
  }

  // ---- Reading --------------------------------------------------------------------------------

  /** Length octets (section 8.1.3): short form, or long form of any size; the indefinite form and
      the reserved first octet are refused. */
  function DecodeLen(s: seq<byte>): (r: Option<(nat, seq<byte>)>)
    ensures r.Some? ==> |r.value.1| < |s| && r.value.1 == s[|s| - |r.value.1|..]
  {
    if s == [] then None
    else if s[0] < 0x80 then Some((s[0], s[1..]))
    else
      var k := s[0] - 0x80;
      if k == 0 || k == 0x7F || |s| < 1 + k then None
      else Some((BigEndian(s[1..1 + k]), s[1 + k..]))
  }

  /** The first value of a byte string, and what follows it. */
  function Parse(s: seq<byte>): (r: Option<(Tlv, seq<byte>)>)
    ensures r.Some? ==> |r.value.1| < |s|
    decreases |s|, 0
  {
    if s == [] || s[0] % 32 == 31 then None else
      match DecodeLen(s[1..])
      case None => None
      case Some((n, rest)) =>
        if |rest| < n then None
        else if !Constructed(s[0]) then Some((Leaf(s[0], rest[..n]), rest[n..]))
        else match ParseAll(rest[..n])
             case None => None
             case Some(children) => Some((Node(s[0], children), rest[n..]))
  }

  /** A byte string that is values from end to end. */
  function ParseAll(s: seq<byte>): Option<seq<Tlv>>
    decreases |s|, 1
  {
    if s == [] then Some([]) else
      match Parse(s)
      case None => None
      case Some((t, rest)) =>
        match ParseAll(rest)
        case None => None
        case Some(ts) => Some([t] + ts)
  }

  // ---- Lengths --------------------------------------------------------------------------------

  lemma BigEndian1(a: byte)
    ensures BigEndian([a]) == a
  {
    assert [a][..0] == [];
  }

  lemma BigEndian2(a: byte, b: byte)
    ensures BigEndian([a, b]) == Join16(a, b)
  {
    assert [a, b][..1] == [a];
    BigEndian1(a);
  }

  /** A length is read back exactly when it is below 2^16: the generator never writes more than two
      length octets. */
  lemma LenRoundTrip(n: nat, rest: seq<byte>)
    ensures n < TWO_TO_16 <==> DecodeLen(EncLen(n) + rest) == Some((n, rest))
  {
    var s := EncLen(n) + rest;
    assert s[|EncLen(n)|..] == rest;
    if n < 0x80 {
    } else if n < 0x100 {
      assert s[1..2] == [n];
      BigEndian1(n);
    } else {
      assert s[1..3] == [n / 256 % 256, n % 256];
      BigEndian2(n / 256 % 256, n % 256);
    }
  }

  /** No other octets that stand for `n` are fewer (section 10.1). */
  lemma LenIsMinimal(n: nat, s: seq<byte>)
    requires DecodeLen(s).Some? && DecodeLen(s).value.0 == n
    ensures |EncLen(n)| <= |s| - |DecodeLen(s).value.1|
  {
    if s[0] >= 0x80 && s[0] - 0x80 == 1 {
      assert s[1..2] == [s[1]];
      BigEndian1(s[1]);
    }
  }

  // ---- Round trip -----------------------------------------------------------------------------

  lemma Header(tag: byte, body: seq<byte>, rest: seq<byte>)
    requires |body| < TWO_TO_16
    ensures var s := [tag] + (EncLen(|body|) + body) + rest;
            && s[0] == tag
            && DecodeLen(s[1..]) == Some((|body|, body + rest))
            && (body + rest)[..|body|] == body && (body + rest)[|body|..] == rest
  {
    var s := [tag] + (EncLen(|body|) + body) + rest;
    Assoc(EncLen(|body|), body, rest);
    assert s[1..] == EncLen(|body|) + body + rest;
    LenRoundTrip(|body|, body + rest);
  }

  lemma ParseLeaf(tag: byte, content: seq<byte>, rest: seq<byte>)
    requires WellTagged(Leaf(tag, content)) && |content| < TWO_TO_16
    ensures Parse(Encode(Leaf(tag, content)) + rest) == Some((Leaf(tag, content), rest))
  {
    Header(tag, content, rest);
  }

  /** The reader gives back the tree and touches nothing behind it, whatever follows. */
  lemma {:induction false} ParseOfEncode(t: Tlv, rest: seq<byte>)
    requires WellTagged(t) && |Encode(t)| < TWO_TO_16
    ensures Parse(Encode(t) + rest) == Some((t, rest))
    decreases t, 0
  {
    match t {
      case Leaf(tag, content) => ParseLeaf(tag, content, rest);
      case Node(tag, children) =>
        Header(tag, EncodeAll(children), rest);
        ParseAllOfEncodeAll(children);
    }
  }

  lemma ParseAllStep(s: seq<byte>, t: Tlv, rest: seq<byte>, ts: seq<Tlv>)
    requires Parse(s) == Some((t, rest)) && ParseAll(rest) == Some(ts)
    ensures ParseAll(s) == Some([t] + ts)
  {
  }

  lemma {:induction false} ParseAllOfEncodeAll(ts: seq<Tlv>)
    requires forall t :: t in ts ==> WellTagged(t)
    requires |EncodeAll(ts)| < TWO_TO_16
    ensures ParseAll(EncodeAll(ts)) == Some(ts)
    decreases ts
  {
    if ts != [] {
      ParseOfEncode(ts[0], EncodeAll(ts[1..]));
      ParseAllOfEncodeAll(ts[1..]);
      ParseAllStep(EncodeAll(ts), ts[0], EncodeAll(ts[1..]), ts[1..]);
      assert [ts[0]] + ts[1..] == ts;
    }
  }

  lemma {:induction false} EncodeAllConcat(a: seq<Tlv>, b: seq<Tlv>)
    ensures EncodeAll(a + b) == EncodeAll(a) + EncodeAll(b)
  {
    if a == [] {
      assert a + b == b;
    } else {
      assert (a + b)[1..] == a[1..] + b;
      EncodeAllConcat(a[1..], b);
    }
  }

  lemma EncodeAllOne(t: Tlv)
    ensures EncodeAll([t]) == Encode(t)
  {
    assert [t][1..] == [];
  }

  lemma EncodeAllSnoc(ts: seq<Tlv>, t: Tlv)
    ensures EncodeAll(ts + [t]) == EncodeAll(ts) + Encode(t)
  {
    EncodeAllConcat(ts, [t]);
    EncodeAllOne(t);
  }
}
