/** What a reader makes of the generator's output. */
module PkiProperties {
  import opened Common
  import opened DerTree
  import opened HawkPki
  import opened X509

  /** 1.3.6.1.4.1.99999.1.1, the identifier that the generator uses for HAWK */
  const ID_HAWK: seq<byte> := [0x2b, 0x06, 0x01, 0x04, 0x01, 0x86, 0x8d, 0x1f, 0x01, 0x01]

  lemma AlgIdIsWellTagged()
    ensures WellTagged(AlgIdTlv())
  {
  }

  lemma SpkiIsWellTagged(pub: seq<byte>)
    ensures WellTagged(SpkiTlv(pub))
  {
    AlgIdIsWellTagged();
  }

  lemma NameIsWellTagged(cn: seq<byte>)
    ensures WellTagged(NameTlv(cn))
  {
    assert WellTagged(NameTlv(cn).children[0].children[0]);
    assert WellTagged(NameTlv(cn).children[0]);
  }

  lemma ExtensionIsWellTagged(id: seq<byte>, critical: bool, v: Tlv)
    ensures WellTagged(ExtensionTlv(id, critical, v))
  {
  }

  lemma ExtensionsAreWellTagged(isCa: bool, server: bool)
    ensures WellTagged(ExtensionsTlv(isCa, server))
  {
    ExtensionIsWellTagged(OID_BASIC_CONSTRAINTS, true, BasicConstraintsTlv(isCa));
    ExtensionIsWellTagged(OID_KEY_USAGE, true, KeyUsageTlv(isCa));
    ExtensionIsWellTagged(OID_EXT_KEY_USAGE, false, EkuTlv(server));
    ExtensionIsWellTagged(OID_SUBJECT_ALT_NAME, false, SanTlv());
    assert WellTagged(SeqTlv(ExtensionList(isCa, server)));
  }

  lemma VersionIsWellTagged(v: nat)
    ensures WellTagged(IntegerTlv(v)) && WellTagged(Node(0xa0, [IntegerTlv(v)]))
  {
  }

  lemma ValidityIsWellTagged(notBefore: seq<byte>, notAfter: seq<byte>)
    ensures WellTagged(ValidityTlv(notBefore, notAfter))
  {
  }

  lemma TbsIsWellTagged(s: Subject)
    ensures WellTagged(TbsTlv(s))
  {
    hide IntegerTlv, AlgIdTlv, NameTlv, ValidityTlv, SpkiTlv, ExtensionsTlv;
    VersionIsWellTagged(2);
    VersionIsWellTagged(s.serial);
    AlgIdIsWellTagged();
    NameIsWellTagged(s.issuer);
    ValidityIsWellTagged(s.notBefore, s.notAfter);
    NameIsWellTagged(s.subject);
    SpkiIsWellTagged(s.pub);
    ExtensionsAreWellTagged(s.isCa, s.server);
  }

  /** The octets that the first part of a sequence occupies in the input. */
  function FirstPart(der: seq<byte>): Option<seq<byte>> {
    if der == [] then None else
      match DecodeLen(der[1..])
      case None => None
      case Some((_, content)) =>
        match Parse(content)
        case None => None
        case Some((_, rest)) => Some(content[..|content| - |rest|])
  }

  lemma FirstPartOfSeq(first: Tlv, others: seq<Tlv>)
    requires WellTagged(first) && |Encode(SeqTlv([first] + others))| < TWO_TO_16
    ensures FirstPart(Encode(SeqTlv([first] + others))) == Some(Encode(first))
  {
    var body := EncodeAll([first] + others);
    assert body == Encode(first) + EncodeAll(others) by {
      assert ([first] + others)[1..] == others;
    }
    Header(0x30, body, []);
    assert body + [] == body;
    assert [0x30] + (EncLen(|body|) + body) + [] == Encode(SeqTlv([first] + others));
    ParseOfEncode(first, EncodeAll(others));
    assert (Encode(first) + EncodeAll(others))[..|Encode(first)|] == Encode(first);
  }

  /** Every certificate that fits the buffer is read back as the values it was made of, with nothing
      left over; its last part is the signature of exactly the octets of the input in which its first
      part was read. */
  lemma CertRoundTrip(s: Subject, sign: seq<byte> -> seq<byte>)
    requires |Encode(CertTlv(s, sign))| <= BUF_CAP
    ensures var der := Encode(CertTlv(s, sign));
            && Parse(der) == Some((CertTlv(s, sign), []))
            && FirstPart(der).Some?
            && match Parse(der)
               case Some((Node(_, parts), _)) =>
                 && |parts| == 3 && parts[0] == TbsTlv(s)
                 && parts[2] == BitsTlv(0, sign(FirstPart(der).value))
               case _ => false
  {
    hide TbsTlv, Encode;
    TbsIsWellTagged(s);
    AlgIdIsWellTagged();
    var t := CertTlv(s, sign);
    assert WellTagged(t);
    ParseOfEncode(t, []);
    assert Encode(t) + [] == Encode(t);
    assert t.children == [TbsTlv(s)] + t.children[1..];
    FirstPartOfSeq(TbsTlv(s), t.children[1..]);
  }

  /** The key pair inside a PKCS #8 private key (RFC 5208, section 5): the octet string behind version 0
      and the HAWK algorithm. */
  function KeyPairOf(der: seq<byte>): Option<seq<byte>> {
    match Parse(der)
    case None => None
    case Some((t, rest)) =>
      var parts := PartsOf(t, SEQUENCE);
      if rest != [] || |parts| < 3 || ReadInteger(parts[0]) != Some(0) || Algorithm(parts[1]) != Some(ID_HAWK) then None
      else ContentOf(parts[2], OCTET_STRING)
  }

  lemma Pkcs8Size(priv: seq<byte>, pub: seq<byte>)
    requires |priv| == HAWK_PRIV_LEN && |pub| == HAWK_PUB_LEN
    ensures |Encode(Pkcs8Tlv(priv, pub))| <= BUF_CAP
  {
    var a, b, c := IntegerTlv(0), AlgIdTlv(), OctetsTlv(priv + pub);
    assert [a, b] + [c] == [a, b, c] && [a] + [b] == [a, b];
    EncodeAllSnoc([a, b], c);
    EncodeAllSnoc([a], b);
    EncodeAllOne(a);
    EncodeAllSnoc([OidTlv(OID_HAWK)], NullTlv());
    EncodeAllOne(OidTlv(OID_HAWK));
    assert [OidTlv(OID_HAWK)] + [NullTlv()] == b.children;
  }

  /** The private key file always fits the buffer and carries the private bytes, then the public. */
  lemma Pkcs8RoundTrip(priv: seq<byte>, pub: seq<byte>)
    requires |priv| == HAWK_PRIV_LEN && |pub| == HAWK_PUB_LEN
    ensures |Encode(Pkcs8Tlv(priv, pub))| <= BUF_CAP
    ensures KeyPairOf(Encode(Pkcs8Tlv(priv, pub))) == Some(priv + pub)
  {
    var t := Pkcs8Tlv(priv, pub);
    Pkcs8Size(priv, pub);
    AlgIdIsWellTagged();
    assert WellTagged(t);
    ParseOfEncode(t, []);
    assert Encode(t) + [] == Encode(t);
    BigEndian1(0);
  }

  // ---- Integers -------------------------------------------------------------------------------

  /** The first nine bits are not all alike (section 8.3.2). */
  predicate MinimalInteger(s: seq<byte>) {
    |s| > 1 ==> !(s[0] == 0 && s[1] < 0x80) && !(s[0] == 0xff && s[1] >= 0x80)
  }

  lemma BigEndian3(a: byte, b: byte, c: byte)
    ensures BigEndian([a, b, c]) == 256 * Join16(a, b) + c
  {
    assert [a, b, c][..2] == [a, b];
    BigEndian2(a, b);
  }

  /** The helper keeps its argument exactly when it is below 2^16, whatever the `unsigned` type holds,
      and then with as few octets as possible. */
  lemma IntegerKeptIffBelow2To16(v: nat)
    ensures IntegerValue(IntegerBytes(v)) == v <==> v < TWO_TO_16
    ensures v < TWO_TO_16 ==> MinimalInteger(IntegerBytes(v))
  {
    hide BigEndian;
    var hi, lo := v / 256 % 256, v % 256;
    if v <= 0x7f {
      BigEndian1(v);
    } else if v <= 0xff {
      BigEndian2(0, v);
    } else if hi >= 0x80 {
      BigEndian3(0, hi, lo);
    } else {
      BigEndian2(hi, lo);
    }
  }

  // ---- What a certificate says ----------------------------------------------------------------

  /** The octets of an ASCII string. */
  function Ascii(s: string): seq<byte> {
    seq(|s|, i requires 0 <= i < |s| => (s[i] as int) % 256)
  }

  lemma BodyIs(s: Subject, sign: seq<byte> -> seq<byte>, i: nat)
    requires i < 8
    ensures Field(CertTlv(s, sign), i) == Some(TbsParts(s)[i])
  {
    hide AlgIdTlv, NameTlv, ValidityTlv, SpkiTlv, ExtensionsTlv;
    BigEndian1(2);
  }

  lemma NameSays(cn: seq<byte>)
    ensures CommonName(NameTlv(cn)) == Some(cn)
  {
  }

  lemma ValuesOfNames(s: Subject, sign: seq<byte> -> seq<byte>)
    ensures Issuer(CertTlv(s, sign)) == Some(s.issuer) && SubjectOf(CertTlv(s, sign)) == Some(s.subject)
  {
    hide Field, NameTlv, CommonName;
    BodyIs(s, sign, 3);
    BodyIs(s, sign, 5);
    NameSays(s.issuer);
    NameSays(s.subject);
  }

  lemma ValuesOfTimes(s: Subject, sign: seq<byte> -> seq<byte>)
    ensures Validity(CertTlv(s, sign)) == Some((s.notBefore, s.notAfter))
    ensures SerialNumber(CertTlv(s, sign)) == Some(s.serial) <==> s.serial < TWO_TO_16
  {
    hide Field;
    BodyIs(s, sign, 4);
    BodyIs(s, sign, 1);
    IntegerKeptIffBelow2To16(s.serial);
  }

  lemma ValuesOfKeys(s: Subject, sign: seq<byte> -> seq<byte>)
    ensures PublicKey(CertTlv(s, sign)) == Some((ID_HAWK, s.pub))
    ensures SignatureAlgorithm(CertTlv(s, sign)) == Some(ID_HAWK)
  {
    hide Field;
    BodyIs(s, sign, 6);
    BodyIs(s, sign, 2);
    assert ([0 as byte] + s.pub)[1..] == s.pub;
  }

  lemma ExtensionSays(id: seq<byte>, critical: bool, v: Tlv)
    requires WellTagged(v) && |Encode(v)| < TWO_TO_16
    ensures forall kind :: ReadExtension(ExtensionTlv(id, critical, v), kind)
                        == if id == kind then Some(Extension(critical, v)) else None
  {
    hide Encode, Parse, WellTagged;
    ParseOfEncode(v, []);
    assert Encode(v) + [] == Encode(v);
  }

  lemma FindCons(t: Tlv, rest: seq<Tlv>, kind: seq<byte>)
    ensures FindIn([t] + rest, kind) == if ReadExtension(t, kind).Some? then ReadExtension(t, kind) else FindIn(rest, kind)
    ensures FindIn([], kind) == None
  {
    assert ([t] + rest)[1..] == rest;
  }

  lemma ValuesAreWellTagged(isCa: bool, server: bool)
    ensures WellTagged(BasicConstraintsTlv(isCa)) && WellTagged(KeyUsageTlv(isCa))
    ensures WellTagged(EkuTlv(server)) && WellTagged(SanTlv())
  {
  }

  /** An optional extension of a list. */
  lemma FindOptional(present: bool, t: Tlv, rest: seq<Tlv>, kind: seq<byte>)
    ensures FindIn((if present then [t] else []) + rest, kind)
         == if present && ReadExtension(t, kind).Some? then ReadExtension(t, kind) else FindIn(rest, kind)
  {
    FindCons(t, rest, kind);
    assert [] + rest == rest;
  }

  /** What is found among the extensions, by the octets of the identifiers. */
  lemma FoundExtensions(isCa: bool, server: bool, kind: seq<byte>)
    ensures FindIn(ExtensionList(isCa, server), kind)
         == if kind == [0x55, 0x1d, 0x13] then Some(Extension(true, BasicConstraintsTlv(isCa)))
            else if kind == [0x55, 0x1d, 0x0f] then Some(Extension(true, KeyUsageTlv(isCa)))
            else if kind == [0x55, 0x1d, 0x25] && !isCa then Some(Extension(false, EkuTlv(server)))
            else if kind == [0x55, 0x1d, 0x11] && server then Some(Extension(false, SanTlv()))
            else None
  {
    hide FindIn, ReadExtension, ExtensionTlv, BasicConstraintsTlv, KeyUsageTlv, EkuTlv, SanTlv, Encode, WellTagged;
    ValuesAreSmall();
    ValuesAreWellTagged(isCa, server);
    var a := ExtensionTlv(OID_BASIC_CONSTRAINTS, true, BasicConstraintsTlv(isCa));
    var b := ExtensionTlv(OID_KEY_USAGE, true, KeyUsageTlv(isCa));
    var c := ExtensionTlv(OID_EXT_KEY_USAGE, false, EkuTlv(server));
    var d := ExtensionTlv(OID_SUBJECT_ALT_NAME, false, SanTlv());
    ExtensionSays(OID_BASIC_CONSTRAINTS, true, BasicConstraintsTlv(isCa));
    ExtensionSays(OID_KEY_USAGE, true, KeyUsageTlv(isCa));
    ExtensionSays(OID_EXT_KEY_USAGE, false, EkuTlv(server));
    ExtensionSays(OID_SUBJECT_ALT_NAME, false, SanTlv());
    var cs, ds := if isCa then [] else [c], if server then [d] else [];
    assert ExtensionList(isCa, server) == [a] + ([b] + (cs + (ds + [])));
    FindCons(a, [b] + (cs + (ds + [])), kind);
    FindCons(b, cs + (ds + []), kind);
    FindOptional(!isCa, c, ds + [], kind);
    FindOptional(server, d, [], kind);
  }

  lemma Found(s: Subject, sign: seq<byte> -> seq<byte>, kind: seq<byte>)
    ensures Find(CertTlv(s, sign), kind) == FindIn(ExtensionList(s.isCa, s.server), kind)
  {
    hide Field, FindIn, ExtensionList;
    BodyIs(s, sign, 7);
  }

  /** Which key usages the two kinds of value allow. */
  lemma UsageBits(i: nat)
    ensures BitIsSet([1, 0x06], i) <==> i == KEY_CERT_SIGN || i == CRL_SIGN
    ensures BitIsSet([7, 0x80], i) <==> i == DIGITAL_SIGNATURE
  {
    if i < 8 {
      assert i / 8 == 0 && i % 8 == i;
    }
  }

  lemma ValuesOfUsage(s: Subject, sign: seq<byte> -> seq<byte>, i: nat)
    ensures IsCa(CertTlv(s, sign)) == Some(s.isCa)
    ensures Allows(CertTlv(s, sign), i)
         == Some(if s.isCa then i == KEY_CERT_SIGN || i == CRL_SIGN else i == DIGITAL_SIGNATURE)
  {
    hide Find, FindIn;
    Found(s, sign, [0x55, 0x1d, 0x13]);
    Found(s, sign, [0x55, 0x1d, 0x0f]);
    FoundExtensions(s.isCa, s.server, [0x55, 0x1d, 0x13]);
    FoundExtensions(s.isCa, s.server, [0x55, 0x1d, 0x0f]);
    UsageBits(i);
    assert [1 as byte] + [0x06] == [1, 0x06] && [7 as byte] + [0x80] == [7, 0x80];
  }

  lemma HostName()
    ensures SAN_DNS == Ascii("pico-mqtt-broker") && SAN_IP == [192, 168, 1, 50]
  {
  }

  lemma ValuesOfPurpose(s: Subject, sign: seq<byte> -> seq<byte>)
    ensures Purpose(CertTlv(s, sign)) == if s.isCa then None else Some(if s.server then SERVER_AUTH else CLIENT_AUTH)
    ensures AlternativeNames(CertTlv(s, sign))
         == if s.server then Some((Ascii("pico-mqtt-broker"), [192, 168, 1, 50])) else None
  {
    hide Find, FindIn, Ascii;
    HostName();
    Found(s, sign, [0x55, 0x1d, 0x25]);
    Found(s, sign, [0x55, 0x1d, 0x11]);
    FoundExtensions(s.isCa, s.server, [0x55, 0x1d, 0x25]);
    FoundExtensions(s.isCa, s.server, [0x55, 0x1d, 0x11]);
  }

  /** What a reader of the octets learns is what the certificate was asked to say. */
  lemma CertificateSays(s: Subject, sign: seq<byte> -> seq<byte>, usage: nat)
    requires |Encode(CertTlv(s, sign))| <= BUF_CAP
    ensures var der := Encode(CertTlv(s, sign));
            && Parse(der).Some? && Parse(der).value.1 == [] && FirstPart(der).Some?
            && var cert := Parse(der).value.0;
               && Issuer(cert) == Some(s.issuer) && SubjectOf(cert) == Some(s.subject)
               && Validity(cert) == Some((s.notBefore, s.notAfter))
               && (SerialNumber(cert) == Some(s.serial) <==> s.serial < TWO_TO_16)
               && PublicKey(cert) == Some((ID_HAWK, s.pub)) && SignatureAlgorithm(cert) == Some(ID_HAWK)
               && Signature(cert) == Some(sign(FirstPart(der).value))
               && IsCa(cert) == Some(s.isCa)
               && Allows(cert, usage)
                  == Some(if s.isCa then usage == KEY_CERT_SIGN || usage == CRL_SIGN else usage == DIGITAL_SIGNATURE)
               && Purpose(cert) == (if s.isCa then None else Some(if s.server then SERVER_AUTH else CLIENT_AUTH))
               && AlternativeNames(cert)
                  == if s.server then Some((Ascii("pico-mqtt-broker"), [192, 168, 1, 50])) else None
  {
    hide Encode, Field, Find, Issuer, SubjectOf, Validity, SerialNumber, PublicKey, SignatureAlgorithm, IsCa, Allows,
         Purpose, AlternativeNames, TbsTlv, AlgIdTlv, FirstPart;
    CertRoundTrip(s, sign);
    ValuesOfNames(s, sign);
    ValuesOfTimes(s, sign);
    ValuesOfKeys(s, sign);
    ValuesOfUsage(s, sign, usage);
    ValuesOfPurpose(s, sign);
    var signature := sign(FirstPart(Encode(CertTlv(s, sign))).value);
    assert ([0 as byte] + signature)[1..] == signature;
  }

  // ---- Defaults -------------------------------------------------------------------------------

  /** BasicConstraints as the distinguished rules want it: a component that has its default value is
      left out (section 11.5 of X.690), and `cA` is FALSE by default (RFC 5280, section 4.2.1.9). */
  function DistinguishedBasicConstraints(isCa: bool): Tlv {
    SeqTlv(if isCa then [BooleanTlv(true)] else [])
  }

  /** The generator meets that rule for the CA certificate only. */
  lemma BasicConstraintsDistinguishedIffCa(isCa: bool)
    ensures Encode(BasicConstraintsTlv(isCa)) == Encode(DistinguishedBasicConstraints(isCa)) <==> isCa
  {
    EncodeAllOne(BooleanTlv(isCa));
    if !isCa {
      assert Encode(BasicConstraintsTlv(isCa))[1] == 3;
      assert Encode(DistinguishedBasicConstraints(isCa))[1] == 0;
    }
  }
}
