/** The certificate generator: DER values written into fixed buffers. */
module HawkPki {
  import opened Common
  import opened DerTree

  const BUF_CAP: nat := 32768
  const HAWK_PRIV_LEN: nat := 184
  const HAWK_PUB_LEN: nat := 1024

  const OID_HAWK: seq<byte> := [0x2b, 0x06, 0x01, 0x04, 0x01, 0x86, 0x8d, 0x1f, 0x01, 0x01]
  const OID_CN: seq<byte> := [0x55, 0x04, 0x03]
  const OID_BASIC_CONSTRAINTS: seq<byte> := [0x55, 0x1d, 0x13]
  const OID_KEY_USAGE: seq<byte> := [0x55, 0x1d, 0x0f]
  const OID_EXT_KEY_USAGE: seq<byte> := [0x55, 0x1d, 0x25]
  const OID_SUBJECT_ALT_NAME: seq<byte> := [0x55, 0x1d, 0x11]
  const OID_SERVER_AUTH: seq<byte> := [0x2b, 0x06, 0x01, 0x05, 0x05, 0x07, 0x03, 0x01]
  const OID_CLIENT_AUTH: seq<byte> := [0x2b, 0x06, 0x01, 0x05, 0x05, 0x07, 0x03, 0x02]
  /** "pico-mqtt-broker" */
  const SAN_DNS: seq<byte> := [112, 105, 99, 111, 45, 109, 113, 116, 116, 45, 98, 114, 111, 107, 101, 114]
  const SAN_IP: seq<byte> := [192, 168, 1, 50]

  // ---- The values -----------------------------------------------------------------------------

  function OidTlv(v: seq<byte>): Tlv { Leaf(0x06, v) }

  function NullTlv(): Tlv { Leaf(0x05, []) }

  /** The content octets of `integer_small` for an `unsigned`. */
  function IntegerBytes(v: nat): (s: seq<byte>)
    ensures 1 <= |s| <= 3
  {
    if v <= 0x7f then [v]
    else if v <= 0xff then [0, v]
    else
      var hi, lo := v / 256 % 256, v % 256;
      if hi >= 0x80 then [0, hi, lo] else [hi, lo]
  }

  function IntegerTlv(v: nat): Tlv { Leaf(0x02, IntegerBytes(v)) }

  function BooleanTlv(v: bool): Tlv { Leaf(0x01, [if v then 0xff else 0x00]) }

  function OctetsTlv(v: seq<byte>): Tlv { Leaf(0x04, v) }

  function BitsTlv(unused: byte, v: seq<byte>): Tlv { Leaf(0x03, [unused] + v) }

  function SeqTlv(ts: seq<Tlv>): Tlv { Node(0x30, ts) }

  function AlgIdTlv(): Tlv { SeqTlv([OidTlv(OID_HAWK), NullTlv()]) }

  function NameTlv(cn: seq<byte>): Tlv {
    SeqTlv([Node(0x31, [SeqTlv([OidTlv(OID_CN), Leaf(0x13, cn)])])])
  }

  function ValidityTlv(notBefore: seq<byte>, notAfter: seq<byte>): Tlv {
    SeqTlv([Leaf(0x18, notBefore), Leaf(0x18, notAfter)])
  }

  function SpkiTlv(pub: seq<byte>): Tlv { SeqTlv([AlgIdTlv(), BitsTlv(0, pub)]) }

  function ExtensionTlv(id: seq<byte>, critical: bool, value: Tlv): Tlv {
    SeqTlv([OidTlv(id)] + (if critical then [BooleanTlv(true)] else []) + [OctetsTlv(Encode(value))])
  }

  function BasicConstraintsTlv(isCa: bool): Tlv { SeqTlv([BooleanTlv(isCa)]) }

  function KeyUsageTlv(isCa: bool): Tlv { if isCa then BitsTlv(1, [0x06]) else BitsTlv(7, [0x80]) }

  function EkuTlv(server: bool): Tlv {
    SeqTlv([OidTlv(if server then OID_SERVER_AUTH else OID_CLIENT_AUTH)])
  }

  function SanTlv(): Tlv { SeqTlv([Leaf(0x82, SAN_DNS), Leaf(0x87, SAN_IP)]) }

  function CriticalExtensions(isCa: bool): seq<Tlv> {
    [ExtensionTlv(OID_BASIC_CONSTRAINTS, true, BasicConstraintsTlv(isCa)),
     ExtensionTlv(OID_KEY_USAGE, true, KeyUsageTlv(isCa))]
  }

  function ExtensionList(isCa: bool, server: bool): seq<Tlv> {
    CriticalExtensions(isCa)
    + (if isCa then [] else [ExtensionTlv(OID_EXT_KEY_USAGE, false, EkuTlv(server))])
    + (if server then [ExtensionTlv(OID_SUBJECT_ALT_NAME, false, SanTlv())] else [])
  }

  function ExtensionsTlv(isCa: bool, server: bool): Tlv { Node(0xa3, [SeqTlv(ExtensionList(isCa, server))]) }

  function Pkcs8Tlv(priv: seq<byte>, pub: seq<byte>): Tlv {
    SeqTlv([IntegerTlv(0), AlgIdTlv(), OctetsTlv(priv + pub)])
  }

  /** What a certificate is made of; the two times are the fifteen characters that
      `generalized_time` prints. */
  datatype Subject = Subject(serial: nat, issuer: seq<byte>, subject: seq<byte>, notBefore: seq<byte>,
                             notAfter: seq<byte>, pub: seq<byte>, isCa: bool, server: bool)

  function TbsParts(s: Subject): seq<Tlv> {
    [Node(0xa0, [IntegerTlv(2)]), IntegerTlv(s.serial), AlgIdTlv(), NameTlv(s.issuer),
     ValidityTlv(s.notBefore, s.notAfter), NameTlv(s.subject), SpkiTlv(s.pub), ExtensionsTlv(s.isCa, s.server)]
  }

  function TbsTlv(s: Subject): Tlv { SeqTlv(TbsParts(s)) }

  /** The signature is over the encoded first part. */
  function CertTlv(s: Subject, sign: seq<byte> -> seq<byte>): Tlv {
    SeqTlv([TbsTlv(s), AlgIdTlv(), BitsTlv(0, sign(Encode(TbsTlv(s))))])
  }

  // ---- Buffers --------------------------------------------------------------------------------

  /** A `derbuf`. Where the program calls `die` the buffer is marked dead, and so is everything that
      is then built from it: the program has ended and uses none of it. */
  class DerBuf {
    const b: array<byte>
    var len: nat
    var dead: bool

    ghost predicate Valid()
      reads this
    {
      b.Length == BUF_CAP && len <= BUF_CAP
    }

    /** `s` has been written to the buffer, unless it is too long. */
    ghost predicate Contains(s: seq<byte>)
      reads this, b
    {
      && Valid()
      && (dead <==> |s| > BUF_CAP)
      && (!dead ==> b[..len] == s)
    }

    /** The given values have been written, one after the other. */
    ghost predicate Holds(ts: seq<Tlv>)
      reads this, b
    {
      Contains(EncodeAll(ts))
    }

    constructor ()
      ensures Contains([]) && fresh(b)
    {
      b := new byte[BUF_CAP](_ => 0);
      len, dead := 0, false;
    }

    /** `memset(&val, 0, sizeof(val))` on a buffer that is alive */
    method Reset(ghost s: seq<byte>)
      requires Contains(s)
      modifies this, b
      ensures |s| <= BUF_CAP ==> Contains([])
      ensures |s| > BUF_CAP ==> Contains(s)
    {
      if !dead {
        forall i | 0 <= i < b.Length {
          b[i] := 0;
        }
        len := 0;
      }
    }

    /** `put` */
    method Put(ghost s: seq<byte>, src: seq<byte>)
      requires Contains(s)
      modifies this, b
      ensures Contains(s + src)
    {
      if dead || len + |src| > BUF_CAP {
        dead := true;
        return;
      }
      forall i | 0 <= i < |src| {
        b[len + i] := src[i];
      }
      len := len + |src|;
      assert b[..len] == s + src;
    }

    /** `put` of all that another buffer contains */
    method PutBuf(ghost s: seq<byte>, src: DerBuf, ghost t: seq<byte>)
      requires Contains(s) && src.Contains(t) && src != this && src.b != b
      modifies this, b
      ensures Contains(s + t)
    {
      if src.dead {
        dead := true;
      } else {
        Put(s, src.b[..src.len]);
      }
    }
  }

  /** `enc_len` */
  method EncLenInto(lb: array<byte>, n: nat) returns (ln: nat)
    requires lb.Length == 4
    modifies lb
    ensures ln == |EncLen(n)| && lb[..ln] == EncLen(n)
  {
    if n < 0x80 {
      lb[0] := n;
      return 1;
    }
    if n < 0x100 {
      lb[0] := 0x81;
      lb[1] := n;
      return 2;
    }
    lb[0] := 0x82;
    lb[1] := n / 256 % 256;
    lb[2] := n % 256;
    return 3;
  }

  /** The octets that `tlv` writes. */
  function TlvBytes(tag: byte, val: seq<byte>): seq<byte> {
    [tag] + (EncLen(|val|) + val)
  }

  /** `tlv` for a value of `n` bytes: the two calls of `put` before the value */
  method PutHeader(out: DerBuf, ghost s: seq<byte>, tag: byte, n: nat)
    requires out.Contains(s)
    modifies out, out.b
    ensures out.Contains(s + ([tag] + EncLen(n)))
  {
    var lb := new byte[4];
    var ln := EncLenInto(lb, n);
    out.Put(s, [tag]);
    out.Put(s + [tag], lb[..ln]);
    Assoc(s, [tag], EncLen(n));
  }

  lemma TlvParts(s: seq<byte>, tag: byte, val: seq<byte>)
    ensures (s + ([tag] + EncLen(|val|))) + val == s + TlvBytes(tag, val)
  {
    Assoc(s, [tag] + EncLen(|val|), val);
    Assoc([tag], EncLen(|val|), val);
  }

  /** `tlv` */
  method PutTlv(out: DerBuf, ghost ts: seq<Tlv>, ghost t: Tlv, tag: byte, val: seq<byte>)
    requires out.Holds(ts) && Encode(t) == TlvBytes(tag, val)
    modifies out, out.b
    ensures out.Holds(ts + [t])
  {
    EncodeAllSnoc(ts, t);
    TlvParts(EncodeAll(ts), tag, val);
    PutHeader(out, EncodeAll(ts), tag, |val|);
    out.Put(EncodeAll(ts) + ([tag] + EncLen(|val|)), val);
  }

  /** `tlv` of what another buffer contains */
  method PutTlvBuf(out: DerBuf, ghost ts: seq<Tlv>, ghost t: Tlv, tag: byte, inner: DerBuf, ghost val: seq<byte>)
    requires out.Holds(ts) && Encode(t) == TlvBytes(tag, val)
    requires inner.Contains(val) && inner != out && inner.b != out.b
    modifies out, out.b
    ensures out.Holds(ts + [t])
  {
    EncodeAllSnoc(ts, t);
    TlvParts(EncodeAll(ts), tag, val);
    if inner.dead {
      out.dead := true;
    } else {
      PutHeader(out, EncodeAll(ts), tag, inner.len);
      out.PutBuf(EncodeAll(ts) + ([tag] + EncLen(|val|)), inner, val);
    }
  }

  // ---- Constructors ---------------------------------------------------------------------------

  /** `seq` and `set`, and the tagged wrappers of `make_tbs` and `v3_extensions` */
  method PutNode(out: DerBuf, ghost ts: seq<Tlv>, ghost t: Tlv, tag: byte, inner: DerBuf)
    requires t.Node? && t.tag == tag
    requires out.Holds(ts) && inner.Holds(t.children) && inner != out && inner.b != out.b
    modifies out, out.b
    ensures out.Holds(ts + [t])
  {
    PutTlvBuf(out, ts, t, tag, inner, EncodeAll(t.children));
  }

  method PutOid(out: DerBuf, ghost ts: seq<Tlv>, v: seq<byte>)
    requires out.Holds(ts)
    modifies out, out.b
    ensures out.Holds(ts + [OidTlv(v)])
  {
    PutTlv(out, ts, OidTlv(v), 0x06, v);
  }

  method PutNull(out: DerBuf, ghost ts: seq<Tlv>)
    requires out.Holds(ts)
    modifies out, out.b
    ensures out.Holds(ts + [NullTlv()])
  {
    EncodeAllSnoc(ts, NullTlv());
    assert Encode(NullTlv()) == [0x05, 0x00];
    out.Put(EncodeAll(ts), [0x05, 0x00]);
  }

  /** `integer_small` */
  method PutInteger(out: DerBuf, ghost ts: seq<Tlv>, v: nat)
    requires out.Holds(ts)
    modifies out, out.b
    ensures out.Holds(ts + [IntegerTlv(v)])
  {
    var b := new byte[5];
    var n := 0;
    if v <= 0x7f {
      b[n], n := v, n + 1;
    } else if v <= 0xff {
      b[n], n := 0x00, n + 1;
      b[n], n := v, n + 1;
    } else {
      b[n], n := v / 256 % 256, n + 1;
      b[n], n := v % 256, n + 1;
      if b[0] >= 0x80 {
        b[1], b[2] := b[0], b[1];
        b[0] := 0x00;
        n := n + 1;
      }
    }
    assert b[..n] == IntegerBytes(v);
    PutTlv(out, ts, IntegerTlv(v), 0x02, b[..n]);
  }

  method PutBoolean(out: DerBuf, ghost ts: seq<Tlv>, v: bool)
    requires out.Holds(ts)
    modifies out, out.b
    ensures out.Holds(ts + [BooleanTlv(v)])
  {
    PutTlv(out, ts, BooleanTlv(v), 0x01, [if v then 0xff else 0x00]);
  }

  /** `bit_string` and `bit_string_raw`, by way of a buffer of their own */
  method PutBits(out: DerBuf, ghost ts: seq<Tlv>, unused: byte, v: seq<byte>)
    requires out.Holds(ts)
    modifies out, out.b
    ensures out.Holds(ts + [BitsTlv(unused, v)])
  {
    var tmp := new DerBuf();
    tmp.Put([], [unused]);
    assert [] + [unused] == [unused];
    tmp.Put([unused], v);
    PutTlvBuf(out, ts, BitsTlv(unused, v), 0x03, tmp, [unused] + v);
  }

  method PutAlgId(out: DerBuf, ghost ts: seq<Tlv>)
    requires out.Holds(ts)
    modifies out, out.b
    ensures out.Holds(ts + [AlgIdTlv()])
  {
    var inner := new DerBuf();
    PutOid(inner, [], OID_HAWK);
    PutNull(inner, [] + [OidTlv(OID_HAWK)]);
    assert [] + [OidTlv(OID_HAWK)] + [NullTlv()] == AlgIdTlv().children;
    PutNode(out, ts, AlgIdTlv(), 0x30, inner);
  }

  /** `name_cn` */
  method PutName(out: DerBuf, ghost ts: seq<Tlv>, cn: seq<byte>)
    requires out.Holds(ts)
    modifies out, out.b
    ensures out.Holds(ts + [NameTlv(cn)])
  {
    ghost var rdnSet := NameTlv(cn).children[0];
    ghost var rdnSeq := rdnSet.children[0];
    var atv := new DerBuf();
    var rdn := new DerBuf();
    var name := new DerBuf();
    PutOid(atv, [], OID_CN);
    PutTlv(atv, [] + [OidTlv(OID_CN)], Leaf(0x13, cn), 0x13, cn);
    assert [] + [OidTlv(OID_CN)] + [Leaf(0x13, cn)] == rdnSeq.children;
    PutNode(rdn, [], rdnSeq, 0x30, atv);
    assert [] + [rdnSeq] == rdnSet.children;
    PutNode(name, [], rdnSet, 0x31, rdn);
    assert [] + [rdnSet] == NameTlv(cn).children;
    PutNode(out, ts, NameTlv(cn), 0x30, name);
  }

  method PutValidity(out: DerBuf, ghost ts: seq<Tlv>, notBefore: seq<byte>, notAfter: seq<byte>)
    requires out.Holds(ts)
    modifies out, out.b
    ensures out.Holds(ts + [ValidityTlv(notBefore, notAfter)])
  {
    var inner := new DerBuf();
    PutTlv(inner, [], Leaf(0x18, notBefore), 0x18, notBefore);
    PutTlv(inner, [] + [Leaf(0x18, notBefore)], Leaf(0x18, notAfter), 0x18, notAfter);
    assert [] + [Leaf(0x18, notBefore)] + [Leaf(0x18, notAfter)] == ValidityTlv(notBefore, notAfter).children;
    PutNode(out, ts, ValidityTlv(notBefore, notAfter), 0x30, inner);
  }

  method PutSpki(out: DerBuf, ghost ts: seq<Tlv>, pub: seq<byte>)
    requires out.Holds(ts)
    modifies out, out.b
    ensures out.Holds(ts + [SpkiTlv(pub)])
  {
    var inner := new DerBuf();
    PutAlgId(inner, []);
    PutBits(inner, [] + [AlgIdTlv()], 0x00, pub);
    assert [] + [AlgIdTlv()] + [BitsTlv(0, pub)] == SpkiTlv(pub).children;
    PutNode(out, ts, SpkiTlv(pub), 0x30, inner);
  }

  /** `extension`; `value` holds the encoded extension value. */
  method PutExtension(out: DerBuf, ghost ts: seq<Tlv>, id: seq<byte>, critical: bool, value: DerBuf, ghost v: Tlv)
    requires out.Holds(ts) && value.Contains(Encode(v)) && value != out && value.b != out.b
    modifies out, out.b
    ensures out.Holds(ts + [ExtensionTlv(id, critical, v)])
  {
    var inner := new DerBuf();
    ghost var kids := [OidTlv(id)];
    PutOid(inner, [], id);
    assert [] + [OidTlv(id)] == kids;
    if critical {
      PutBoolean(inner, kids, true);
      kids := kids + [BooleanTlv(true)];
    }
    PutTlvBuf(inner, kids, OctetsTlv(Encode(v)), 0x04, value, Encode(v));
    assert kids + [OctetsTlv(Encode(v))] == ExtensionTlv(id, critical, v).children;
    PutNode(out, ts, ExtensionTlv(id, critical, v), 0x30, inner);
  }

  /** `basic_constraints_value` */
  method PutBasicConstraints(out: DerBuf, isCa: bool)
    requires out.Contains([])
    modifies out, out.b
    ensures out.Contains(Encode(BasicConstraintsTlv(isCa)))
  {
    var inner := new DerBuf();
    PutBoolean(inner, [], isCa);
    assert [] + [BooleanTlv(isCa)] == BasicConstraintsTlv(isCa).children;
    PutNode(out, [], BasicConstraintsTlv(isCa), 0x30, inner);
    EncodeAllOne(BasicConstraintsTlv(isCa));
    assert [] + [BasicConstraintsTlv(isCa)] == [BasicConstraintsTlv(isCa)];
  }

  /** `key_usage_value` */
  method PutKeyUsage(out: DerBuf, isCa: bool)
    requires out.Contains([])
    modifies out, out.b
    ensures out.Contains(Encode(KeyUsageTlv(isCa)))
  {
    if isCa {
      PutBits(out, [], 1, [0x06]);
    } else {
      PutBits(out, [], 7, [0x80]);
    }
    EncodeAllOne(KeyUsageTlv(isCa));
    assert [] + [KeyUsageTlv(isCa)] == [KeyUsageTlv(isCa)];
  }

  /** `eku_value` */
  method PutEku(out: DerBuf, server: bool)
    requires out.Contains([])
    modifies out, out.b
    ensures out.Contains(Encode(EkuTlv(server)))
  {
    var id := if server then OID_SERVER_AUTH else OID_CLIENT_AUTH;
    var inner := new DerBuf();
    PutOid(inner, [], id);
    assert [] + [OidTlv(id)] == EkuTlv(server).children;
    PutNode(out, [], EkuTlv(server), 0x30, inner);
    EncodeAllOne(EkuTlv(server));
    assert [] + [EkuTlv(server)] == [EkuTlv(server)];
  }

  /** `san_value` */
  method PutSan(out: DerBuf)
    requires out.Contains([])
    modifies out, out.b
    ensures out.Contains(Encode(SanTlv()))
  {
    var inner := new DerBuf();
    PutTlv(inner, [], Leaf(0x82, SAN_DNS), 0x82, SAN_DNS);
    PutTlv(inner, [] + [Leaf(0x82, SAN_DNS)], Leaf(0x87, SAN_IP), 0x87, SAN_IP);
    assert [] + [Leaf(0x82, SAN_DNS)] + [Leaf(0x87, SAN_IP)] == SanTlv().children;
    PutNode(out, [], SanTlv(), 0x30, inner);
    EncodeAllOne(SanTlv());
    assert [] + [SanTlv()] == [SanTlv()];
  }

  /** The extension values are a few bytes long. */
  lemma ValuesAreSmall()
    ensures forall ca :: |Encode(BasicConstraintsTlv(ca))| <= 64 && |Encode(KeyUsageTlv(ca))| <= 64
    ensures forall server :: |Encode(EkuTlv(server))| <= 64
    ensures |Encode(SanTlv())| <= 64
  {
    forall ca
      ensures |Encode(BasicConstraintsTlv(ca))| <= 64
    {
      EncodeAllOne(BooleanTlv(ca));
    }
    forall server
      ensures |Encode(EkuTlv(server))| <= 64
    {
      EncodeAllOne(EkuTlv(server).children[0]);
    }
    EncodeAllSnoc([Leaf(0x82, SAN_DNS)], Leaf(0x87, SAN_IP));
    EncodeAllOne(Leaf(0x82, SAN_DNS));
    assert [Leaf(0x82, SAN_DNS)] + [Leaf(0x87, SAN_IP)] == SanTlv().children;
  }

  method PutCriticalExtensions(all: DerBuf, val: DerBuf, isCa: bool)
    requires all.Holds([]) && val.Contains([]) && val != all && val.b != all.b
    modifies all, all.b, val, val.b
    ensures all.Holds(CriticalExtensions(isCa)) && val.Contains(Encode(KeyUsageTlv(isCa)))
  {
    ValuesAreSmall();
    ghost var first := ExtensionTlv(OID_BASIC_CONSTRAINTS, true, BasicConstraintsTlv(isCa));
    PutBasicConstraints(val, isCa);
    PutExtension(all, [], OID_BASIC_CONSTRAINTS, true, val, BasicConstraintsTlv(isCa));
    assert [] + [first] == [first];
    val.Reset(Encode(BasicConstraintsTlv(isCa)));
    PutKeyUsage(val, isCa);
    PutExtension(all, [first], OID_KEY_USAGE, true, val, KeyUsageTlv(isCa));
    assert [first] + [ExtensionTlv(OID_KEY_USAGE, true, KeyUsageTlv(isCa))] == CriticalExtensions(isCa);
  }

  method PutOptionalExtensions(all: DerBuf, val: DerBuf, isCa: bool, server: bool)
    requires all.Holds(CriticalExtensions(isCa)) && val.Contains(Encode(KeyUsageTlv(isCa)))
    requires val != all && val.b != all.b
    modifies all, all.b, val, val.b
    ensures all.Holds(ExtensionList(isCa, server))
  {
    ValuesAreSmall();
    ghost var kids, last := CriticalExtensions(isCa), Encode(KeyUsageTlv(isCa));
    if !isCa {
      val.Reset(last);
      PutEku(val, server);
      PutExtension(all, kids, OID_EXT_KEY_USAGE, false, val, EkuTlv(server));
      kids, last := kids + [ExtensionTlv(OID_EXT_KEY_USAGE, false, EkuTlv(server))], Encode(EkuTlv(server));
    }
    if server {
      val.Reset(last);
      PutSan(val);
      PutExtension(all, kids, OID_SUBJECT_ALT_NAME, false, val, SanTlv());
      kids := kids + [ExtensionTlv(OID_SUBJECT_ALT_NAME, false, SanTlv())];
    }
    assert kids == ExtensionList(isCa, server);
  }

  lemma NothingHeld()
    ensures EncodeAll([]) == []
  {
  }

  /** The last two lines of `v3_extensions` */
  method PutTaggedSeq(out: DerBuf, ghost ts: seq<Tlv>, ghost list: seq<Tlv>, all: DerBuf)
    requires out.Holds(ts) && all.Holds(list) && all != out && all.b != out.b
    modifies out, out.b
    ensures out.Holds(ts + [Node(0xa3, [SeqTlv(list)])])
  {
    hide Encode, EncodeAll;
    var seqbuf := new DerBuf();
    assert [] + [SeqTlv(list)] == [SeqTlv(list)];
    NothingHeld();
    PutNode(seqbuf, [], SeqTlv(list), 0x30, all);
    PutNode(out, ts, Node(0xa3, [SeqTlv(list)]), 0xa3, seqbuf);
  }

  /** `v3_extensions` */
  method PutExtensions(out: DerBuf, ghost ts: seq<Tlv>, isCa: bool, server: bool)
    requires out.Holds(ts)
    modifies out, out.b
    ensures out.Holds(ts + [ExtensionsTlv(isCa, server)])
  {
    hide ExtensionList, Encode, EncodeAll;
    NothingHeld();
    var all := new DerBuf();
    var val := new DerBuf();
    PutCriticalExtensions(all, val, isCa);
    PutOptionalExtensions(all, val, isCa, server);
    PutTaggedSeq(out, ts, ExtensionList(isCa, server), all);
  }

  /** `pkcs8` */
  method PutPkcs8(out: DerBuf, ghost ts: seq<Tlv>, priv: seq<byte>, pub: seq<byte>)
    requires out.Holds(ts)
    modifies out, out.b
    ensures out.Holds(ts + [Pkcs8Tlv(priv, pub)])
  {
    var inner := new DerBuf();
    PutInteger(inner, [], 0);
    PutAlgId(inner, [] + [IntegerTlv(0)]);
    PutTlv(inner, [] + [IntegerTlv(0)] + [AlgIdTlv()], OctetsTlv(priv + pub), 0x04, priv + pub);
    assert [] + [IntegerTlv(0)] + [AlgIdTlv()] + [OctetsTlv(priv + pub)] == Pkcs8Tlv(priv, pub).children;
    PutNode(out, ts, Pkcs8Tlv(priv, pub), 0x30, inner);
  }

  /** The version, serial number and algorithm of `make_tbs` */
  method PutTbsHead(inner: DerBuf, s: Subject)
    requires inner.Holds([])
    modifies inner, inner.b
    ensures inner.Holds(TbsParts(s)[..3])
  {
    hide Encode, EncodeAll, IntegerTlv, AlgIdTlv;
    NothingHeld();
    ghost var version := Node(0xa0, [IntegerTlv(2)]);
    var ver := new DerBuf();
    PutInteger(ver, [], 2);
    assert [] + [IntegerTlv(2)] == version.children;
    PutNode(inner, [], version, 0xa0, ver);
    PutInteger(inner, [] + [version], s.serial);
    PutAlgId(inner, [] + [version] + [IntegerTlv(s.serial)]);
    assert [] + [version] + [IntegerTlv(s.serial)] + [AlgIdTlv()] == TbsParts(s)[..3];
  }

  /** The names and the validity of `make_tbs` */
  method PutTbsNames(inner: DerBuf, s: Subject)
    requires inner.Holds(TbsParts(s)[..3])
    modifies inner, inner.b
    ensures inner.Holds(TbsParts(s)[..6])
  {
    hide Encode, EncodeAll, NameTlv, ValidityTlv;
    ghost var kids := TbsParts(s)[..3];
    PutName(inner, kids, s.issuer);
    kids := kids + [NameTlv(s.issuer)];
    PutValidity(inner, kids, s.notBefore, s.notAfter);
    kids := kids + [ValidityTlv(s.notBefore, s.notAfter)];
    PutName(inner, kids, s.subject);
    assert kids + [NameTlv(s.subject)] == TbsParts(s)[..6];
  }

  /** The key and the extensions of `make_tbs` */
  method PutTbsTail(inner: DerBuf, s: Subject)
    requires inner.Holds(TbsParts(s)[..6])
    modifies inner, inner.b
    ensures inner.Holds(TbsParts(s))
  {
    ghost var kids := TbsParts(s)[..6];
    PutSpki(inner, kids, s.pub);
    kids := kids + [SpkiTlv(s.pub)];
    PutExtensions(inner, kids, s.isCa, s.server);
    assert kids + [ExtensionsTlv(s.isCa, s.server)] == TbsParts(s);
  }

  /** `make_tbs` */
  method PutTbs(out: DerBuf, ghost ts: seq<Tlv>, s: Subject)
    requires out.Holds(ts)
    modifies out, out.b
    ensures out.Holds(ts + [TbsTlv(s)])
  {
    var inner := new DerBuf();
    PutTbsHead(inner, s);
    PutTbsNames(inner, s);
    PutTbsTail(inner, s);
    PutNode(out, ts, TbsTlv(s), 0x30, inner);
  }

  /** The last three lines of `make_cert` */
  method PutSigned(out: DerBuf, inner: DerBuf, ghost tbs: Tlv, ghost cert: Tlv, sig: seq<byte>)
    requires out.Holds([]) && inner.Holds([tbs]) && inner != out && inner.b != out.b
    requires cert == SeqTlv([tbs, AlgIdTlv(), BitsTlv(0, sig)])
    modifies out, out.b, inner, inner.b
    ensures out.Holds([cert])
  {
    PutAlgId(inner, [tbs]);
    PutBits(inner, [tbs] + [AlgIdTlv()], 0x00, sig);
    assert [tbs] + [AlgIdTlv()] + [BitsTlv(0, sig)] == cert.children;
    PutNode(out, [], cert, 0x30, inner);
    assert [] + [cert] == [cert];
  }

  lemma TbsInsideCert(s: Subject, sign: seq<byte> -> seq<byte>)
    ensures |Encode(TbsTlv(s))| <= |EncodeAll([CertTlv(s, sign)])|
  {
    var t := CertTlv(s, sign);
    EncodeAllOne(t);
    EncodeAllConcat([t.children[0]], t.children[1..]);
    EncodeAllOne(t.children[0]);
    assert [t.children[0]] + t.children[1..] == t.children;
  }

  /** `make_cert`; `sign` stands for the HAWK signature of the encoded first part. */
  method PutCert(out: DerBuf, s: Subject, sign: seq<byte> -> seq<byte>)
    requires out.Holds([])
    modifies out, out.b
    ensures out.Holds([CertTlv(s, sign)])
  {
    ghost var tree := TbsTlv(s);
    var tbs := new DerBuf();
    var inner := new DerBuf();
    PutTbs(tbs, [], s);
    EncodeAllOne(tree);
    assert [] + [tree] == [tree];
    if tbs.dead {
      TbsInsideCert(s, sign);
      out.dead := true;
      return;
    }
    var sig := sign(tbs.b[..tbs.len]);
    inner.PutBuf([], tbs, Encode(tree));
    assert [] + Encode(tree) == EncodeAll([tree]);
    PutSigned(out, inner, tree, CertTlv(s, sign), sig);
  }
}
