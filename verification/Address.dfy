/**
 Wallet addresses (src_c/client-node/address/address.c): a version byte, a 32-byte public
 key and a 4-byte checksum, written in Base58. SHA-256 is the parameter `sha`; running out
 of memory and a failing `memcpy` are not modelled.
 */
module Address {
  import opened Basics
  import opened Positional
  import opened Base58
  import opened Base58Codec

  const PUBLIC_KEY_LEN: nat := 32
  const CHECKSUM_LEN: nat := 4
  const ADDRESS_LEN: nat := 56
  const PAYLOAD_LEN: nat := 1 + PUBLIC_KEY_LEN + CHECKSUM_LEN

  type Digest = s: seq<Byte> | |s| == 32 witness seq(32, _ => 0)

  function Checksum(sha: seq<Byte> -> Digest, payload: seq<Byte>): (c: seq<Byte>)
    ensures |c| == CHECKSUM_LEN
  {
    sha(sha(payload))[..CHECKSUM_LEN]
  }

  function Payload(sha: seq<Byte> -> Digest, version: Byte, key: seq<Byte>): seq<Byte> {
    [version] + key + Checksum(sha, [version] + key)
  }

  // ---- encoding ----

  /** The text of `n` bytes is never longer than the digit buffer for `n` bytes. */
  lemma EncodedLength(data: seq<Byte>)
    ensures |Encode58(data)| <= Capacity(|data|)
  {
    hide Pow, Value, Digits;
    var z := LeadingRun(data, 0);
    var n := |data| - z;
    ValueSkipsZeros(256, data, z);
    ValueBound(256, data[z..]);
    CapacityBound(n);
    DigitsLength(58, Value(256, data), Capacity(n));
  }

  /** The program ends when the key has the wrong length; otherwise the text is returned. */
  method EncodeAddress(sha: seq<Byte> -> Digest, version: Byte, raw: seq<Byte>)
    returns (exited: bool, b58: array<Byte>)
    ensures fresh(b58) && b58.Length == ADDRESS_LEN
    ensures exited <==> |raw| != PUBLIC_KEY_LEN
    ensures !exited ==>
      var text := Encode58([version] + raw + sha(sha([version] + raw))[..4]);
      |text| < ADDRESS_LEN && b58[..|text| + 1] == text + [0]
  {
    hide Encode58;
    b58 := new Byte[ADDRESS_LEN];
    if |raw| != PUBLIC_KEY_LEN {
      return true, b58;
    }
    var encode := [version] + raw;
    encode := encode + Checksum(sha, encode);
    EncodedLength(encode);
    var ok, _ := B58Enc(b58, ADDRESS_LEN, encode);
    exited := !ok;
  }

  // ---- decoding ----

  /** `strncmp(a, b, n) == 0`: equal bytes up to `n` or up to a common terminating zero. */
  predicate StrnEqual(a: seq<Byte>, b: seq<Byte>)
    requires |a| == |b|
  {
    a == [] || (a[0] == b[0] && (a[0] == 0 || StrnEqual(a[1..], b[1..])))
  }

  datatype Outcome = Exited | Refused | Key(raw: seq<nat>, len: nat)

  /** What `decode_address_to_raw` answers for a text. */
  ghost function Decode(sha: seq<Byte> -> Digest, version: Byte, text: seq<Byte>): Outcome {
    match Decode58(text, PAYLOAD_LEN)
    case Rejected => Exited
    case Accepted(bytes, len) =>
      if bytes[0] != version then Refused
      else
        var key := bytes[1..1 + PUBLIC_KEY_LEN];
        if StrnEqual(bytes[1 + PUBLIC_KEY_LEN..], Checksum(sha, [version] + key)) then Key(key, len) else Refused
  }

  method DecodeAddress(sha: seq<Byte> -> Digest, version: Byte, str: seq<Byte>) returns (r: Outcome)
    requires 0 in str
    ensures r == Decode(sha, version, str[..Strlen(str)])
  {
    hide Decode58;
    var decoded := new Byte[PAYLOAD_LEN];
    var ok, len := B58ToBin(decoded, PAYLOAD_LEN, str, Strlen(str));
    if !ok {
      return Exited;
    }
    assert decoded[..PAYLOAD_LEN] == decoded[..];
    var actual := decoded[1 + PUBLIC_KEY_LEN..];
    if decoded[0] != version {
      return Refused;
    }
    var raw := decoded[1..1 + PUBLIC_KEY_LEN];
    var target := Checksum(sha, [version] + raw);
    if !StrnEqual(actual, target) {
      return Refused;
    }
    return Key(raw, len);
  }

  // ---- the two together ----

  lemma {:induction false} StrnReflexive(a: seq<Byte>)
    ensures StrnEqual(a, a)
  {
    if a != [] { StrnReflexive(a[1..]); }
  }

  /**
   The program ends exactly on texts with a foreign character or a number of more than 37 bytes. Any other text
   denotes 37 bytes, and the key among them is returned exactly when the version agrees and the checksum
   compares equal, with the significant bytes and the leading ones of the text counted.
   */
  lemma DecodeOfNumber(sha: seq<Byte> -> Digest, version: Byte, text: seq<Byte>, v: Byte, key: seq<Byte>, c: seq<Byte>)
    requires |key| == PUBLIC_KEY_LEN && |c| == CHECKSUM_LEN
    ensures Decode(sha, version, text) == Exited <==>
            !AllDigits(text) || Value(58, DigitsOf(text)) >= Pow(256, 37)
    ensures AllDigits(text) && Value(58, DigitsOf(text)) == Value(256, [v] + key + c) ==>
      var len := 37 - LeadingRun([v] + key + c, 0) + LeadingRun(text, ONE);
      Decode(sha, version, text) ==
        if v == version && StrnEqual(c, sha(sha([version] + key))[..4]) then Key(key, len) else Refused
  {
    hide Value, Pow, Fixed, Digits, StrnEqual, LeadingRun;
    var bytes := [v] + key + c;
    if AllDigits(text) && Value(58, DigitsOf(text)) == Value(256, bytes) {
      ValueBound(256, bytes);
      FixedOfValue(256, bytes);
      CanonicalSize(Value(256, bytes), 37, LeadingRun(bytes, 0));
      assert bytes[0] == v && bytes[1..1 + PUBLIC_KEY_LEN] == key && bytes[1 + PUBLIC_KEY_LEN..] == c;
    }
  }

  /** Any 37 bytes, written as text and decoded. */
  lemma DecodeOfBytes(sha: seq<Byte> -> Digest, version: Byte, v: Byte, key: seq<Byte>, c: seq<Byte>)
    requires |key| == PUBLIC_KEY_LEN && |c| == CHECKSUM_LEN
    ensures Decode(sha, version, Encode58([v] + key + c)) ==
            if v == version && StrnEqual(c, Checksum(sha, [version] + key)) then Key(key, PAYLOAD_LEN) else Refused
  {
    hide Decode, Encode58, Value, Pow, StrnEqual, LeadingRun;
    var bytes := [v] + key + c;
    DigitsOfEncoded(bytes);
    DecodeOfNumber(sha, version, Encode58(bytes), v, key, c);
  }

  /** Decoding an encoded key gives the key back under its own version and nothing under another. */
  lemma AddressRoundTrip(sha: seq<Byte> -> Digest, version: Byte, key: seq<Byte>, other: Byte)
    requires |key| == PUBLIC_KEY_LEN
    ensures Decode(sha, version, Encode58(Payload(sha, version, key))) == Key(key, PAYLOAD_LEN)
    ensures other != version ==> Decode(sha, other, Encode58(Payload(sha, version, key))) == Refused
  {
    hide Decode, Encode58, StrnEqual;
    var c := Checksum(sha, [version] + key);
    StrnReflexive(c);
    DecodeOfBytes(sha, version, version, key, c);
    DecodeOfBytes(sha, other, version, key, c);
  }

  /** Any number of ones before the text goes unnoticed but for the length reported: a key has many addresses. */
  lemma LeadingOnesAccepted(sha: seq<Byte> -> Digest, version: Byte, key: seq<Byte>, k: nat)
    requires |key| == PUBLIC_KEY_LEN
    ensures Decode(sha, version, Ones(k) + Encode58(Payload(sha, version, key))) == Key(key, PAYLOAD_LEN + k)
  {
    hide Decode58, Encode58, StrnEqual, Checksum;
    var data := Payload(sha, version, key);
    MoreOnes(data, k);
    RoundTrip(data);
    AddressRoundTrip(sha, version, key, version);
  }

  /** The text written by the encoder, wherever it lies in memory, is the string the decoder reads. */
  lemma StoredText(mem: seq<Byte>, data: seq<Byte>)
    requires |mem| > |Encode58(data)| && mem[..|Encode58(data)| + 1] == Encode58(data) + [0]
    ensures 0 in mem && mem[..Strlen(mem)] == Encode58(data)
  {
    hide Encode58;
    var text := Encode58(data);
    var n := |text|;
    assert mem[n] == mem[..n + 1][n] == 0;
    assert mem[..n] == mem[..n + 1][..n] == text;
    TextHasNoZero(data);
    assert forall i :: 0 <= i < n ==> mem[i] == text[i];
    var m := Strlen(mem);
    assert m <= n;
    assert n <= m;
  }

  lemma TextHasNoZero(data: seq<Byte>)
    ensures forall i :: 0 <= i < |Encode58(data)| ==> Encode58(data)[i] != 0
  {
    hide Pow, Value, Digits;
  }

  // ---- what the checksum comparison lets through ----

  lemma {:induction false} StrnMeaning(a: seq<Byte>, b: seq<Byte>)
    requires |a| == |b|
    ensures StrnEqual(a, b) <==> a == b || exists i :: 0 <= i < |b| && b[i] == 0 && a[..i + 1] == b[..i + 1]
  {
    if a == [] {
    } else if a[0] != b[0] {
      forall i | 0 <= i < |b| && b[i] == 0
        ensures a[..i + 1] != b[..i + 1]
      {
        assert a[..i + 1][0] != b[..i + 1][0];
      }
    } else if a[0] == 0 {
      assert a[..0 + 1] == b[..0 + 1];
    } else {
      StrnMeaning(a[1..], b[1..]);
      assert a == [a[0]] + a[1..] && b == [b[0]] + b[1..];
      if i :| 0 <= i < |b| - 1 && b[1..][i] == 0 && a[1..][..i + 1] == b[1..][..i + 1] {
        assert a[..i + 2] == [a[0]] + a[1..][..i + 1];
        assert b[..i + 2] == [b[0]] + b[1..][..i + 1];
        assert b[i + 1] == 0 && a[..(i + 1) + 1] == b[..(i + 1) + 1];
      }
      forall i | 0 <= i < |b| && b[i] == 0 && a[..i + 1] == b[..i + 1]
        ensures StrnEqual(a[1..], b[1..])
      {
        assert a[1..][..i] == a[..i + 1][1..] && b[1..][..i] == b[..i + 1][1..];
        assert b[1..][i - 1] == 0 && a[1..][..(i - 1) + 1] == b[1..][..(i - 1) + 1];
      }
    }
  }

  /**
   A checksum altered into `c` goes unnoticed exactly when the true checksum has a zero byte and
   the two agree up to and including it: the comparison is a string comparison.
   */
  lemma AlteredChecksum(sha: seq<Byte> -> Digest, version: Byte, key: seq<Byte>, c: seq<Byte>)
    requires |key| == PUBLIC_KEY_LEN && |c| == CHECKSUM_LEN
    requires c != Checksum(sha, [version] + key)
    ensures Decode(sha, version, Encode58([version] + key + c)).Key? <==>
            exists i :: 0 <= i < CHECKSUM_LEN && Checksum(sha, [version] + key)[i] == 0
                        && c[..i + 1] == Checksum(sha, [version] + key)[..i + 1]
  {
    hide Decode, Encode58, StrnEqual;
    var t := Checksum(sha, [version] + key);
    StrnMeaning(c, t);
    DecodeOfBytes(sha, version, version, key, c);
  }

  /** Some wrong checksum is accepted exactly when the true one has a zero byte before its last byte. */
  lemma CorruptedAddressAccepted(sha: seq<Byte> -> Digest, version: Byte, key: seq<Byte>)
    requires |key| == PUBLIC_KEY_LEN
    ensures (exists c :: |c| == CHECKSUM_LEN && AcceptedWrongly(sha, version, key, c)) <==>
            exists i :: 0 <= i < CHECKSUM_LEN - 1 && Checksum(sha, [version] + key)[i] == 0
  {
    hide Decode, Encode58, StrnEqual;
    var t := Checksum(sha, [version] + key);
    if c :| |c| == CHECKSUM_LEN && AcceptedWrongly(sha, version, key, c) {
      assert c[..CHECKSUM_LEN] == c && t[..CHECKSUM_LEN] == t;
      AlteredChecksum(sha, version, key, c);
      var i :| 0 <= i < CHECKSUM_LEN && t[i] == 0 && c[..i + 1] == t[..i + 1];
    }
    if i :| 0 <= i < CHECKSUM_LEN - 1 && t[i] == 0 {
      var c := t[CHECKSUM_LEN - 1 := if t[CHECKSUM_LEN - 1] == 0 then 1 else 0];
      AlteredChecksum(sha, version, key, c);
      assert c[..i + 1] == t[..i + 1];
      assert AcceptedWrongly(sha, version, key, c);
    }
  }

  ghost predicate AcceptedWrongly(sha: seq<Byte> -> Digest, version: Byte, key: seq<Byte>, c: seq<Byte>)
    requires |key| == PUBLIC_KEY_LEN && |c| == CHECKSUM_LEN
  {
    c != Checksum(sha, [version] + key) && Decode(sha, version, Encode58([version] + key + c)).Key?
  }
}
