/** Reading private keys on the device. */
module KeyImport {
  import opened Common
  import opened DerTree
  import opened HawkPki
  import opened PkiProperties
  import opened X509

  datatype Ret = OK | BAD_FUNC_ARG | BUFFER_E | ASN_PARSE_E

  // ---- Key objects ----------------------------------------------------------------------------

  /** `wc_Hawk512Key`, `wc_Mayo1Key` and `wc_Snova2454Key`, which differ in their sizes only */
  class SchemeKey {
    const priv: array<byte>
    const pub: array<byte>
    var hasPriv: bool
    var hasPub: bool

    ghost predicate Valid()
      reads this
    {
      priv != pub
    }

    /** `wc_Hawk512_Init` and its like */
    constructor (privLen: nat, pubLen: nat)
      ensures Valid() && !hasPriv && !hasPub && fresh(priv) && fresh(pub)
      ensures priv.Length == privLen && pub.Length == pubLen
    {
      priv := new byte[privLen](_ => 0);
      pub := new byte[pubLen](_ => 0);
      hasPriv, hasPub := false, false;
    }

    /** `wc_Hawk512_ImportPublic` and its like; a missing argument is a null pointer. */
    method ImportPublic(src: Option<seq<byte>>) returns (ret: Ret)
      requires Valid()
      modifies this`hasPub, pub
      ensures Valid()
      ensures ret == if src.None? then BAD_FUNC_ARG
                     else if |src.value| != pub.Length then BUFFER_E else OK
      ensures ret == OK ==> hasPub && pub[..] == src.value
      ensures ret != OK ==> hasPub == old(hasPub) && pub[..] == old(pub[..])
    {
      if src.None? {
        return BAD_FUNC_ARG;
      }
      if |src.value| != pub.Length {
        return BUFFER_E;
      }
      forall i | 0 <= i < pub.Length {
        pub[i] := src.value[i];
      }
      hasPub := true;
      return OK;
    }

    /** `wc_Hawk512_ImportPrivateKey`: nothing changes unless both halves are good. */
    method ImportPrivateKey(secret: Option<seq<byte>>, shared: Option<seq<byte>>) returns (ret: Ret)
      requires Valid()
      modifies this, priv, pub
      ensures Valid()
      ensures ret == if secret.None? || shared.None? then BAD_FUNC_ARG
                     else if |secret.value| != priv.Length || |shared.value| != pub.Length then BUFFER_E
                     else OK
      ensures ret == OK ==> hasPriv && hasPub && priv[..] == secret.value && pub[..] == shared.value
      ensures ret != OK ==> && hasPriv == old(hasPriv) && hasPub == old(hasPub)
                            && priv[..] == old(priv[..]) && pub[..] == old(pub[..])
    {
      if secret.None? || shared.None? {
        return BAD_FUNC_ARG;
      }
      if |secret.value| != priv.Length {
        return BUFFER_E;
      }
      ret := ImportPublic(shared);
      if ret != OK {
        return ret;
      }
      forall i | 0 <= i < priv.Length {
        priv[i] := secret.value[i];
      }
      hasPriv := true;
      return OK;
    }

    /** `wc_Hawk512_ImportPrivateKeyPair` */
    method ImportPrivateKeyPair(keyPair: Option<seq<byte>>) returns (ret: Ret)
      requires Valid()
      modifies this, priv, pub
      ensures Valid()
      ensures ret == if keyPair.None? then BAD_FUNC_ARG
                     else if |keyPair.value| != priv.Length + pub.Length then BUFFER_E
                     else OK
      ensures ret == OK ==> hasPriv && hasPub && keyPair.value == priv[..] + pub[..]
      ensures ret != OK ==> && hasPriv == old(hasPriv) && hasPub == old(hasPub)
                            && priv[..] == old(priv[..]) && pub[..] == old(pub[..])
    {
      if keyPair.None? {
        return BAD_FUNC_ARG;
      }
      if |keyPair.value| != priv.Length + pub.Length {
        return BUFFER_E;
      }
      ret := ImportPrivateKey(Some(keyPair.value[..priv.Length]), Some(keyPair.value[priv.Length..]));
    }
  }

  /** The key that the generator wrote is the key that the device holds. */
  method ImportGenerated(key: SchemeKey, priv: seq<byte>, pub: seq<byte>) returns (ret: Ret)
    requires key.Valid() && |priv| == HAWK_PRIV_LEN && |pub| == HAWK_PUB_LEN
    requires key.priv.Length == HAWK_PRIV_LEN && key.pub.Length == HAWK_PUB_LEN
    modifies key, key.priv, key.pub
    ensures ret == OK && key.priv[..] == priv && key.pub[..] == pub
  {
    var file := new DerBuf();
    PutPkcs8(file, [], priv, pub);
    Pkcs8RoundTrip(priv, pub);
    EncodeAllOne(Pkcs8Tlv(priv, pub));
    assert [] + [Pkcs8Tlv(priv, pub)] == [Pkcs8Tlv(priv, pub)];
    ret := key.ImportPrivateKeyPair(KeyPairOf(file.b[..file.len]));
    assert (priv + pub)[..HAWK_PRIV_LEN] == priv && (priv + pub)[HAWK_PRIV_LEN..] == pub;
    assert (key.priv[..] + key.pub[..])[..HAWK_PRIV_LEN] == key.priv[..];
    assert (key.priv[..] + key.pub[..])[HAWK_PRIV_LEN..] == key.pub[..];
  }

  // ---- MAYO and SNOVA -------------------------------------------------------------------------

  /** One definite-length OCTET STRING with exactly `size` content octets, nothing behind it, and at
      most four length octets after the first. */
  ghost predicate IsWrapped(input: seq<byte>, size: nat) {
    && input != [] && input[0] == 0x04
    && var len := DecodeLen(input[1..]);
       len.Some? && len.value.0 == size == |len.value.1| && |input| <= size + 6
  }

  /** A wrapped key pair is longer than a raw one, so no input is both. */
  lemma FormsAreDisjoint(input: seq<byte>, size: nat)
    requires IsWrapped(input, size)
    ensures |input| > size && input[|input| - size..] == DecodeLen(input[1..]).value.1
  {
    var rest := DecodeLen(input[1..]).value.1;
    assert input[1..][|input[1..]| - |rest|..] == input[|input| - |rest|..];
  }

  lemma BigEndianStep(s: seq<byte>, i: nat, j: nat)
    requires i <= j < |s|
    ensures BigEndian(s[i..j + 1]) == BigEndian(s[i..j]) * 256 + s[j]
  {
    assert s[i..j + 1][..j - i] == s[i..j];
  }

  lemma PowersUpTo4()
    ensures Pow256(0) == 1 && Pow256(1) == 0x100 && Pow256(2) == 0x1_0000
    ensures Pow256(3) == 0x100_0000 && Pow256(4) == 0x1_0000_0000
  {
  }

  /** The long-form loop: `lenBytes` length octets from index 2 on, most significant first. */
  method ReadLongLength(input: seq<byte>, count: nat) returns (len: nat, idx: nat)
    requires 0 < count <= 4 && 2 + count <= |input|
    ensures idx == 2 + count && len == BigEndian(input[2..idx]) < TWO_TO_32
  {
    idx, len := 2, 0;
    var lenBytes := count;
    PowersUpTo4();
    while lenBytes > 0
      invariant lenBytes <= count && idx == 2 + count - lenBytes
      invariant len == BigEndian(input[2..idx]) < Pow256(idx - 2)
    {
      BigEndianStep(input, 2, idx);
      len := (len * 256) % TWO_TO_32 + input[idx];
      idx := idx + 1;
      lenBytes := lenBytes - 1;
    }
  }

  /** The length octets after the tag: refused when indefinite, cut off, or more than four. */
  method ReadLength(input: seq<byte>) returns (ok: bool, len: nat, idx: nat)
    requires 2 <= |input| < TWO_TO_32
    ensures ok ==> 2 <= idx <= 6 && idx <= |input| && DecodeLen(input[1..]) == Some((len, input[idx..]))
    ensures !ok ==> DecodeLen(input[1..]).None? || |DecodeLen(input[1..]).value.1| + 6 < |input|
  {
    hide BigEndian, Pow256;
    var lenByte := input[1];
    ok, len, idx := true, 0, 2;
    assert input[1..][0] == lenByte;
    if lenByte < 0x80 {
      len := lenByte;
      assert input[1..][1..] == input[2..];
    } else {
      var lenBytes := lenByte - 0x80;
      if lenBytes == 0 || lenBytes > 4 || (idx + lenBytes) % TWO_TO_32 > |input| {
        return false, 0, 0;
      }
      len, idx := ReadLongLength(input, lenBytes);
      assert input[1..][1..1 + lenBytes] == input[2..idx];
      assert input[1..][1 + lenBytes..] == input[idx..];
    }
  }

  lemma WrappedIsLong(input: seq<byte>, size: nat)
    ensures IsWrapped(input, size) ==> |input| >= 2
  {
  }

  /** `wc_Mayo1_UnwrapPrivateKeyData` and `wc_Snova2454_UnwrapPrivateKeyData`, for a key pair of
      `size` bytes: the key pair is the `n` bytes of the input from `off` on. */
  method UnwrapPrivateKeyData(arg: Option<seq<byte>>, size: nat) returns (ret: Ret, off: nat, n: nat)
    requires arg.Some? ==> |arg.value| < TWO_TO_32
    requires size + 6 < TWO_TO_32
    ensures arg.None? <==> ret == BAD_FUNC_ARG
    ensures arg.Some? ==> ret == OK || ret == ASN_PARSE_E
    ensures arg.Some? ==> (ret == OK <==> |arg.value| == size || IsWrapped(arg.value, size))
    ensures ret == OK ==> n == size && off + n == |arg.value|
  {
    hide DecodeLen;
    if arg.None? {
      return BAD_FUNC_ARG, 0, 0;
    }
    var input := arg.value;
    if |input| == size {
      return OK, 0, |input|;
    }
    if |input| < 2 || input[0] != 0x04 {
      WrappedIsLong(input, size);
      return ASN_PARSE_E, 0, 0;
    }
    var ok, len, idx := ReadLength(input);
    if !ok || len != size || (idx + len) % TWO_TO_32 != |input| {
      return ASN_PARSE_E, 0, 0;
    }
    return OK, idx, len;
  }

  /** What the generator's octet string constructor writes around a key pair is unwrapped again. */
  lemma UnwrapsWhatEncoderWraps(keyPair: seq<byte>)
    requires |keyPair| < TWO_TO_16
    ensures IsWrapped(Encode(OctetsTlv(keyPair)), |keyPair|)
  {
    var s := Encode(OctetsTlv(keyPair));
    assert s[1..] == EncLen(|keyPair|) + keyPair;
    LenRoundTrip(|keyPair|, keyPair);
  }

  /** Unwrapping and importing: every file that holds a key pair of the scheme, wrapped or raw, gives
      the key object its first bytes as private and its last as public; any other changes nothing. */
  method UnwrapAndImport(key: SchemeKey, input: seq<byte>) returns (ret: Ret)
    requires key.Valid() && |input| < TWO_TO_32 && key.priv.Length + key.pub.Length + 6 < TWO_TO_32
    modifies key, key.priv, key.pub
    ensures var size := key.priv.Length + key.pub.Length;
            && (ret == OK <==> |input| == size || IsWrapped(input, size))
            && (ret == OK ==> key.hasPriv && key.hasPub && key.priv[..] + key.pub[..] == input[|input| - size..])
    ensures ret != OK ==> && key.hasPriv == old(key.hasPriv) && key.hasPub == old(key.hasPub)
                          && key.priv[..] == old(key.priv[..]) && key.pub[..] == old(key.pub[..])
  {
    hide IsWrapped;
    var off, n;
    ret, off, n := UnwrapPrivateKeyData(Some(input), key.priv.Length + key.pub.Length);
    if ret != OK {
      return ret;
    }
    assert input[off..off + n] == input[off..];
    ret := key.ImportPrivateKeyPair(Some(input[off..off + n]));
  }
}
