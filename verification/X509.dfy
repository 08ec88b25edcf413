/** A reader of certificates by RFC 5280: what each part of a parsed certificate means. Nothing here
    knows how the generator builds one; object identifiers are given by their octets. */
module X509 {
  import opened Common
  import opened DerTree

  const BIT_STRING: byte := 0x03
  const OCTET_STRING: byte := 0x04
  const OBJECT_IDENTIFIER: byte := 0x06
  const PRINTABLE_STRING: byte := 0x13
  const GENERALIZED_TIME: byte := 0x18
  const SEQUENCE: byte := 0x30
  const SET: byte := 0x31

  /** The parts of a constructed value with the given tag; none if it is something else. */
  function PartsOf(t: Tlv, tag: byte): seq<Tlv> {
    if t.Node? && t.tag == tag then t.children else []
  }

  function OnlyPart(t: Tlv, tag: byte): Option<Tlv> {
    if |PartsOf(t, tag)| == 1 then Some(PartsOf(t, tag)[0]) else None
  }

  function ContentOf(t: Tlv, tag: byte): Option<seq<byte>> {
    if t.Leaf? && t.tag == tag then Some(t.content) else None
  }

  // ---- Integers -------------------------------------------------------------------------------

  function Pow256(k: nat): nat {
    if k == 0 then 1 else 256 * Pow256(k - 1)
  }

  /** The value of INTEGER content octets, in two's complement (section 8.3.3 of X.690). */
  function IntegerValue(s: seq<byte>): int
    requires s != []
  {
    BigEndian(s) - if s[0] >= 0x80 then Pow256(|s|) else 0
  }

  function ReadInteger(t: Tlv): Option<int> {
    if t.Leaf? && t.tag == 0x02 && t.content != [] then Some(IntegerValue(t.content)) else None
  }

  // ---- The certificate (section 4.1) ----------------------------------------------------------

  /** A certificate is its body, the signature algorithm and the signature. */
  function Body(cert: Tlv): seq<Tlv> {
    if |PartsOf(cert, SEQUENCE)| == 3 then PartsOf(cert.children[0], SEQUENCE) else []
  }

  /** Field `i` of the body of a version 3 certificate (section 4.1.2): version, serial number, signature,
      issuer, validity, subject, public key, extensions. */
  function Field(cert: Tlv, i: nat): Option<Tlv>
    requires i < 8
  {
    var body := Body(cert);
    if |body| == 8 && OnlyPart(body[0], 0xa0).Some? && ReadInteger(OnlyPart(body[0], 0xa0).value) == Some(2) then
      Some(body[i])
    else
      None
  }

  function SerialNumber(cert: Tlv): Option<int> {
    match Field(cert, 1)
    case None => None
    case Some(t) => ReadInteger(t)
  }

  /** The object identifier of an algorithm without parameters, or with NULL for them (section 4.1.1.2). */
  function Algorithm(t: Tlv): Option<seq<byte>> {
    var parts := PartsOf(t, SEQUENCE);
    if |parts| == 1 || (|parts| == 2 && parts[1] == Leaf(0x05, [])) then ContentOf(parts[0], OBJECT_IDENTIFIER) else None
  }

  /** The algorithm of the signature, if it is the same inside and outside the body. */
  function SignatureAlgorithm(cert: Tlv): Option<seq<byte>> {
    match Field(cert, 2)
    case None => None
    case Some(t) => if |PartsOf(cert, SEQUENCE)| == 3 && cert.children[1] == t then Algorithm(t) else None
  }

  /** The value of a name that is one attribute with the given type (section 4.1.2.4). */
  function Attribute(name: Tlv, kind: seq<byte>): Option<seq<byte>> {
    match OnlyPart(name, SEQUENCE)
    case None => None
    case Some(rdn) =>
      match OnlyPart(rdn, SET)
      case None => None
      case Some(attribute) =>
        var parts := PartsOf(attribute, SEQUENCE);
        if |parts| == 2 && ContentOf(parts[0], OBJECT_IDENTIFIER) == Some(kind) then
          ContentOf(parts[1], PRINTABLE_STRING)
        else
          None
  }

  /** id-at-commonName, 2.5.4.3 */
  function CommonName(name: Tlv): Option<seq<byte>> {
    Attribute(name, [0x55, 0x04, 0x03])
  }

  function Issuer(cert: Tlv): Option<seq<byte>> {
    match Field(cert, 3)
    case None => None
    case Some(t) => CommonName(t)
  }

  function SubjectOf(cert: Tlv): Option<seq<byte>> {
    match Field(cert, 5)
    case None => None
    case Some(t) => CommonName(t)
  }

  /** The first and the last moment at which the certificate is valid (section 4.1.2.5). */
  function Validity(cert: Tlv): Option<(seq<byte>, seq<byte>)> {
    match Field(cert, 4)
    case None => None
    case Some(t) =>
      var times := PartsOf(t, SEQUENCE);
      if |times| != 2 then None
      else match (ContentOf(times[0], GENERALIZED_TIME), ContentOf(times[1], GENERALIZED_TIME))
           case (Some(first), Some(last)) => Some((first, last))
           case _ => None
  }

  /** The algorithm and the octets of the public key (section 4.1.2.7). */
  function PublicKey(cert: Tlv): Option<(seq<byte>, seq<byte>)> {
    match Field(cert, 6)
    case None => None
    case Some(t) =>
      var parts := PartsOf(t, SEQUENCE);
      if |parts| != 2 then None
      else match (Algorithm(parts[0]), ContentOf(parts[1], BIT_STRING))
           case (Some(algorithm), Some(bits)) => if bits != [] && bits[0] == 0 then Some((algorithm, bits[1..])) else None
           case _ => None
  }

  function Signature(cert: Tlv): Option<seq<byte>> {
    if |PartsOf(cert, SEQUENCE)| != 3 then None
    else match ContentOf(cert.children[2], BIT_STRING)
         case None => None
         case Some(bits) => if bits != [] && bits[0] == 0 then Some(bits[1..]) else None
  }

  // ---- Extensions (section 4.2) ---------------------------------------------------------------

  /** Whether an extension is critical, and its value */
  datatype Extension = Extension(critical: bool, value: Tlv)

  function ReadExtension(t: Tlv, kind: seq<byte>): Option<Extension> {
    var parts := PartsOf(t, SEQUENCE);
    if |parts| < 2 || ContentOf(parts[0], OBJECT_IDENTIFIER) != Some(kind) then None
    else if |parts| == 3 && parts[1] != Leaf(0x01, [0xff]) then None
    else match ContentOf(parts[|parts|-1], OCTET_STRING)
         case None => None
         case Some(octets) =>
           match Parse(octets)
           case None => None
           case Some((value, rest)) => if rest == [] && |parts| <= 3 then Some(Extension(|parts| == 3, value)) else None
  }

  function FindIn(extensions: seq<Tlv>, kind: seq<byte>): Option<Extension> {
    if extensions == [] then None
    else if ReadExtension(extensions[0], kind).Some? then ReadExtension(extensions[0], kind)
    else FindIn(extensions[1..], kind)
  }

  function Find(cert: Tlv, kind: seq<byte>): Option<Extension> {
    match Field(cert, 7)
    case None => None
    case Some(t) =>
      match OnlyPart(t, 0xa3)
      case None => None
      case Some(list) => FindIn(PartsOf(list, SEQUENCE), kind)
  }

  /** id-ce-basicConstraints, 2.5.29.19: whether the subject is a CA (section 4.2.1.9) */
  function IsCa(cert: Tlv): Option<bool> {
    match Find(cert, [0x55, 0x1d, 0x13])
    case None => None
    case Some(e) =>
      if !e.value.Node? || e.value.tag != SEQUENCE then None
      else if e.value.children == [] then Some(false)
      else match ContentOf(e.value.children[0], 0x01)
           case None => None
           case Some(b) => if |b| == 1 then Some(b[0] != 0) else None
  }

  function Weight(i: nat): (w: nat)
    ensures w > 0
  {
    if i == 0 then 0x80 else if i == 1 then 0x40 else if i == 2 then 0x20 else if i == 3 then 0x10
    else if i == 4 then 8 else if i == 5 then 4 else if i == 6 then 2 else 1
  }

  /** Bit `i` of a BIT STRING, the first being the highest of the first octet (section 8.6.2 of X.690). */
  predicate BitIsSet(bits: seq<byte>, i: nat) {
    && bits != [] && i < 8 * (|bits| - 1) - bits[0]
    && 1 + i / 8 < |bits| && (bits[1 + i / 8] / Weight(i % 8)) % 2 == 1
  }

  const DIGITAL_SIGNATURE: nat := 0
  const KEY_CERT_SIGN: nat := 5
  const CRL_SIGN: nat := 6

  /** id-ce-keyUsage, 2.5.29.15: whether the key may be used for purpose `i` of section 4.2.1.3 */
  function Allows(cert: Tlv, i: nat): Option<bool> {
    match Find(cert, [0x55, 0x1d, 0x0f])
    case None => None
    case Some(e) =>
      match ContentOf(e.value, BIT_STRING)
      case None => None
      case Some(bits) => Some(BitIsSet(bits, i))
  }

  /** id-kp-serverAuth, 1.3.6.1.5.5.7.3.1, and id-kp-clientAuth, 1.3.6.1.5.5.7.3.2 */
  const SERVER_AUTH: seq<byte> := [0x2b, 0x06, 0x01, 0x05, 0x05, 0x07, 0x03, 0x01]
  const CLIENT_AUTH: seq<byte> := [0x2b, 0x06, 0x01, 0x05, 0x05, 0x07, 0x03, 0x02]

  /** id-ce-extKeyUsage, 2.5.29.37: the only purpose (section 4.2.1.12) */
  function Purpose(cert: Tlv): Option<seq<byte>> {
    match Find(cert, [0x55, 0x1d, 0x25])
    case None => None
    case Some(e) =>
      match OnlyPart(e.value, SEQUENCE)
      case None => None
      case Some(t) => ContentOf(t, OBJECT_IDENTIFIER)
  }

  /** id-ce-subjectAltName, 2.5.29.17: the host name and the address (section 4.2.1.6) */
  function AlternativeNames(cert: Tlv): Option<(seq<byte>, seq<byte>)> {
    match Find(cert, [0x55, 0x1d, 0x11])
    case None => None
    case Some(e) =>
      var names := PartsOf(e.value, SEQUENCE);
      if |names| != 2 then None
      else match (ContentOf(names[0], 0x82), ContentOf(names[1], 0x87))
           case (Some(host), Some(address)) => Some((host, address))
           case _ => None
  }
}
