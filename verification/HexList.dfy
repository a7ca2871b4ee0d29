/**
 The list of hashes kept for an address (src/cache/cache.go:253-328): hex numerals separated by
 commas, with empty parts that `remove` leaves behind and `read` skips.
 */
module HexList {
  import opened Basics

  type Hash32 = s: seq<Byte> | |s| == 32 witness seq(32, _ => 0)

  // ---- hex ----

  function HexDigit(n: nat): char
    requires n < 16
  {
    if n < 10 then ('0' as int + n) as char else ('a' as int + n - 10) as char
  }

  function FromHexDigit(c: char): (r: Option<nat>)
    ensures r.Some? ==> r.value < 16
  {
    if '0' <= c <= '9' then Some(c as int - '0' as int)
    else if 'a' <= c <= 'f' then Some(c as int - 'a' as int + 10)
    else if 'A' <= c <= 'F' then Some(c as int - 'A' as int + 10)
    else None
  }

  lemma HexDigitBack(n: nat)
    requires n < 16
    ensures FromHexDigit(HexDigit(n)) == Some(n) && HexDigit(n) != ','
  {
  }

  /** Sixteen ascending characters among '0'-'9' and 'a'-'f'; upper case is read like lower case. */
  lemma HexDigitsAscend(n: nat, m: nat, c: char)
    ensures n < m < 16 ==> HexDigit(n) < HexDigit(m)
    ensures n < 16 ==> '0' <= HexDigit(n) <= '9' || 'a' <= HexDigit(n) <= 'f'
    ensures FromHexDigit(c).Some? <==> '0' <= c <= '9' || 'a' <= c <= 'f' || 'A' <= c <= 'F'
    ensures 'A' <= c <= 'F' ==> FromHexDigit(c) == FromHexDigit((c as int + 32) as char)
  {
  }

  ghost predicate NoComma(s: string) {
    forall i :: 0 <= i < |s| ==> s[i] != ','
  }

  function HexEncode(b: seq<Byte>): (s: string)
    ensures |s| == 2 * |b| && NoComma(s)
  {
    if b == [] then ""
    else
      HexDigitBack(b[0] / 16);
      HexDigitBack(b[0] % 16);
      [HexDigit(b[0] / 16), HexDigit(b[0] % 16)] + HexEncode(b[1..])
  }

  function HexDecode(s: string): Option<seq<Byte>> {
    if s == "" then Some([])
    else if |s| == 1 then None
    else
      match (FromHexDigit(s[0]), FromHexDigit(s[1]), HexDecode(s[2..]))
      case (Some(x), Some(y), Some(r)) => Some([16 * x + y] + r)
      case _ => None
  }

  lemma {:induction false} HexRoundTrip(b: seq<Byte>)
    ensures HexDecode(HexEncode(b)) == Some(b)
  {
    hide HexDigit, FromHexDigit;
    if b == [] {
    } else {
      HexDigitBack(b[0] / 16);
      HexDigitBack(b[0] % 16);
      HexRoundTrip(b[1..]);
      assert HexEncode(b)[2..] == HexEncode(b[1..]);
      assert [b[0]] + b[1..] == b;
    }
  }

  /** Two digits for each byte, the higher one first. */
  lemma {:induction false} HexEncodeAt(b: seq<Byte>, i: nat)
    requires i < |b|
    ensures HexEncode(b)[2 * i] == HexDigit(b[i] / 16) && HexEncode(b)[2 * i + 1] == HexDigit(b[i] % 16)
  {
    hide HexDigit;
    if i > 0 { HexEncodeAt(b[1..], i - 1); }
  }

  ghost predicate HexText(s: string) {
    |s| % 2 == 0 && forall i :: 0 <= i < |s| ==> FromHexDigit(s[i]).Some?
  }

  lemma HexTextStep(s: string)
    requires |s| >= 2
    ensures HexText(s) <==> FromHexDigit(s[0]).Some? && FromHexDigit(s[1]).Some? && HexText(s[2..])
  {
    hide FromHexDigit;
    assert forall i :: 2 <= i < |s| ==> s[i] == s[2..][i - 2];
  }

  /** Read back exactly from an even number of digits. */
  lemma {:induction false} HexDecodeMeans(s: string)
    ensures HexDecode(s).Some? <==> HexText(s)
    ensures HexDecode(s).Some? ==> |HexDecode(s).value| * 2 == |s|
  {
    hide FromHexDigit;
    if |s| >= 2 {
      hide HexText;
      HexDecodeMeans(s[2..]);
      HexTextStep(s);
    }
  }

  // ---- splitting at commas ----

  /** `bytes.Split(s, ",")`: always at least one part. */
  function Split(s: string): (parts: seq<string>)
    ensures |parts| >= 1
  {
    if s == "" then [""]
    else
      var rest := Split(s[1..]);
      if s[0] == ',' then [""] + rest else [[s[0]] + rest[0]] + rest[1..]
  }

  lemma {:induction false} SplitPlain(p: string)
    requires NoComma(p)
    ensures Split(p) == [p]
  {
    if p != "" {
      SplitPlain(p[1..]);
      assert [p[0]] + p[1..] == p;
    }
  }

  lemma {:induction false} SplitAppend(s: string, p: string)
    requires NoComma(p)
    ensures Split(s + "," + p) == Split(s) + [p]
  {
    var t := s + "," + p;
    if s == "" {
      assert t == "," + p && t[1..] == p;
      SplitPlain(p);
      assert Split("") == [""];
    } else {
      SplitAppend(s[1..], p);
      assert t[1..] == s[1..] + "," + p;
    }
  }

  lemma {:induction false} SplitNoCommas(s: string)
    ensures forall i :: 0 <= i < |Split(s)| ==> NoComma(Split(s)[i])
  {
    if s != "" { SplitNoCommas(s[1..]); }
  }

  // ---- what a list denotes ----

  function NonEmpty(parts: seq<string>): seq<string> {
    if parts == [] then []
    else if parts[|parts| - 1] == "" then NonEmpty(parts[..|parts| - 1])
    else NonEmpty(parts[..|parts| - 1]) + [parts[|parts| - 1]]
  }

  function Encoded(hs: seq<Hash32>): seq<string> {
    if hs == [] then [] else Encoded(hs[..|hs| - 1]) + [HexEncode(hs[|hs| - 1])]
  }

  function Dropped(hs: seq<Hash32>, h: Hash32): seq<Hash32> {
    if hs == [] then []
    else if hs[|hs| - 1] == h then Dropped(hs[..|hs| - 1], h)
    else Dropped(hs[..|hs| - 1], h) + [hs[|hs| - 1]]
  }

  /** The non-empty parts of `text` are the numerals of `hs`, in order. */
  ghost predicate Denotes(text: string, hs: seq<Hash32>) {
    NonEmpty(Split(text)) == Encoded(hs)
  }

  lemma NonEmptySnoc(parts: seq<string>, p: string)
    ensures NonEmpty(parts + [p]) == if p == "" then NonEmpty(parts) else NonEmpty(parts) + [p]
  {
    assert (parts + [p])[..|parts|] == parts;
  }

  lemma EncodedSnoc(hs: seq<Hash32>, h: Hash32)
    ensures Encoded(hs + [h]) == Encoded(hs) + [HexEncode(h)]
  {
    assert (hs + [h])[..|hs|] == hs;
  }

  lemma {:induction false} EncodedLength(hs: seq<Hash32>)
    ensures |Encoded(hs)| == |hs|
  {
    if hs != [] { EncodedLength(hs[..|hs| - 1]); }
  }

  // ---- the operations ----

  /** `set` and `add`. */
  function AddText(text: string, h: Hash32): string {
    if text == "" then HexEncode(h) else text + "," + HexEncode(h)
  }

  /** `add` appends, also to an empty text. */
  lemma AddDenotes(text: string, hs: seq<Hash32>, h: Hash32)
    requires Denotes(text, hs)
    ensures Denotes(AddText(text, h), hs + [h])
  {
    hide HexEncode;
    EncodedSnoc(hs, h);
    EncodedLength(hs);
    if text == "" {
      assert NonEmpty([""][..0]) == [];
      SplitPlain(HexEncode(h));
      NonEmptySnoc([], HexEncode(h));
      assert [] + [HexEncode(h)] == [HexEncode(h)];
    } else {
      SplitAppend(text, HexEncode(h));
      NonEmptySnoc(Split(text), HexEncode(h));
    }
  }

  function Kept(parts: seq<string>, enc: string): seq<string> {
    if parts == [] then []
    else if parts[|parts| - 1] == enc then Kept(parts[..|parts| - 1], enc)
    else Kept(parts[..|parts| - 1], enc) + [parts[|parts| - 1]]
  }

  /** Every kept part with a comma before it. */
  function Commas(parts: seq<string>): string {
    if parts == [] then "" else Commas(parts[..|parts| - 1]) + "," + parts[|parts| - 1]
  }

  function RemoveText(text: string, h: Hash32): string {
    Commas(Kept(Split(text), HexEncode(h)))
  }

  /** The loop of `remove`. */
  method Remove(values: string, h: Hash32) returns (newValues: string)
    ensures newValues == RemoveText(values, h)
  {
    hide HexEncode, Split;
    var enc := HexEncode(h);
    var parts := Split(values);
    newValues := "";
    for i := 0 to |parts|
      invariant newValues == Commas(Kept(parts[..i], enc))
    {
      KeptNext(parts, enc, i);
      if parts[i] != enc {
        CommasSnoc(Kept(parts[..i], enc), parts[i]);
        newValues := newValues + "," + parts[i];
      }
    }
    assert parts[..|parts|] == parts;
  }

  lemma KeptNext(parts: seq<string>, enc: string, i: nat)
    requires i < |parts|
    ensures Kept(parts[..i + 1], enc) ==
            if parts[i] == enc then Kept(parts[..i], enc) else Kept(parts[..i], enc) + [parts[i]]
  {
    assert parts[..i + 1][..i] == parts[..i];
  }

  lemma CommasSnoc(parts: seq<string>, p: string)
    ensures Commas(parts + [p]) == Commas(parts) + "," + p
  {
    assert (parts + [p])[..|parts|] == parts;
  }

  lemma {:induction false} SplitCommas(parts: seq<string>)
    requires forall i :: 0 <= i < |parts| ==> NoComma(parts[i])
    ensures Split(Commas(parts)) == [""] + parts
  {
    if parts == [] {
    } else {
      var u, p := parts[..|parts| - 1], parts[|parts| - 1];
      SplitCommas(u);
      SplitAppend(Commas(u), p);
      assert [""] + u + [p] == [""] + parts;
    }
  }

  lemma {:induction false} KeptNoCommas(parts: seq<string>, enc: string)
    requires forall i :: 0 <= i < |parts| ==> NoComma(parts[i])
    ensures forall i :: 0 <= i < |Kept(parts, enc)| ==> NoComma(Kept(parts, enc)[i])
  {
    if parts != [] { KeptNoCommas(parts[..|parts| - 1], enc); }
  }

  lemma {:induction false} NonEmptyCons(parts: seq<string>)
    ensures NonEmpty([""] + parts) == NonEmpty(parts)
  {
    if parts == [] {
      assert [""] + parts == [] + [""];
      NonEmptySnoc([], "");
    } else {
      var u, p := parts[..|parts| - 1], parts[|parts| - 1];
      NonEmptyCons(u);
      assert [""] + parts == ([""] + u) + [p];
      NonEmptySnoc([""] + u, p);
    }
  }

  lemma {:induction false} NonEmptyKept(parts: seq<string>, enc: string)
    requires enc != ""
    ensures NonEmpty(Kept(parts, enc)) == Kept(NonEmpty(parts), enc)
  {
    if parts != [] {
      var u, p := parts[..|parts| - 1], parts[|parts| - 1];
      NonEmptyKept(u, enc);
      if p == enc {
        KeptSnoc(NonEmpty(u), enc, p);
      } else {
        NonEmptySnoc(Kept(u, enc), p);
        if p != "" { KeptSnoc(NonEmpty(u), enc, p); }
      }
    }
  }

  lemma KeptSnoc(parts: seq<string>, enc: string, p: string)
    ensures Kept(parts + [p], enc) == if p == enc then Kept(parts, enc) else Kept(parts, enc) + [p]
  {
    assert (parts + [p])[..|parts|] == parts;
  }

  lemma {:induction false} KeptEncoded(hs: seq<Hash32>, h: Hash32)
    ensures Kept(Encoded(hs), HexEncode(h)) == Encoded(Dropped(hs, h))
  {
    hide HexEncode;
    if hs != [] {
      var u, x := hs[..|hs| - 1], hs[|hs| - 1];
      KeptEncoded(u, h);
      KeptSnoc(Encoded(u), HexEncode(h), HexEncode(x));
      HexRoundTrip(h);
      HexRoundTrip(x);
      if x != h { EncodedSnoc(Dropped(u, h), x); }
    }
  }

  /** `remove` filters, whatever empty parts there were. */
  lemma RemoveDenotes(text: string, hs: seq<Hash32>, h: Hash32)
    requires Denotes(text, hs)
    ensures Denotes(RemoveText(text, h), Dropped(hs, h))
  {
    hide HexEncode, NonEmpty, Kept, Commas, Split, Encoded, Dropped;
    var parts, enc := Split(text), HexEncode(h);
    SplitNoCommas(text);
    KeptNoCommas(parts, enc);
    SplitCommas(Kept(parts, enc));
    NonEmptyCons(Kept(parts, enc));
    NonEmptyKept(parts, enc);
    KeptEncoded(hs, h);
  }

  ghost predicate AllAre(parts: seq<string>, enc: string) {
    forall i :: 0 <= i < |parts| ==> parts[i] == enc
  }

  /** Nothing is left of a list exactly when every part of it was the hash removed. */
  lemma RemovedToNothing(text: string, h: Hash32)
    ensures RemoveText(text, h) == "" <==> AllAre(Split(text), HexEncode(h))
  {
    hide HexEncode, Split, Commas, Kept, AllAre;
    KeptNothing(Split(text), HexEncode(h));
  }

  lemma {:induction false} KeptNothing(parts: seq<string>, enc: string)
    ensures Commas(Kept(parts, enc)) == "" <==> AllAre(parts, enc)
  {
    if parts != [] {
      KeptNothing(parts[..|parts| - 1], enc);
      if parts[|parts| - 1] != enc { CommasSnoc(Kept(parts[..|parts| - 1], enc), parts[|parts| - 1]); }
    }
  }

  lemma {:induction false} CommasCons(p: string, rest: seq<string>)
    ensures Commas([p] + rest) == "," + p + Commas(rest)
  {
    var all := [p] + rest;
    if rest == [] {
      assert all[..0] == [];
    } else {
      var u := rest[..|rest| - 1];
      CommasCons(p, u);
      assert all[..|all| - 1] == [p] + u;
    }
  }

  /** Put together again with commas, the parts are the text. */
  lemma {:induction false} SplitJoins(s: string)
    ensures Split(s)[0] + Commas(Split(s)[1..]) == s
  {
    if s != "" {
      SplitJoins(s[1..]);
      var rest := Split(s[1..]);
      CommasCons(rest[0], rest[1..]);
      assert rest == [rest[0]] + rest[1..];
      assert Split(s)[1..] == if s[0] == ',' then rest else rest[1..];
      assert s == [s[0]] + s[1..];
    }
  }

  // ---- commas ----

  lemma {:induction false} SplitCount(s: string)
    ensures NoComma(s) <==> |Split(s)| == 1
  {
    if s != "" {
      SplitCount(s[1..]);
      assert s == [s[0]] + s[1..];
    }
  }

  lemma CommasHaveComma(parts: seq<string>)
    requires parts != []
    ensures !NoComma(Commas(parts))
  {
    var s := Commas(parts[..|parts| - 1]);
    assert Commas(parts)[|s|] == ',';
  }

  /** A text without commas is empty or one numeral. */
  lemma PlainDenotes(text: string, hs: seq<Hash32>)
    requires Denotes(text, hs) && NoComma(text)
    ensures text == "" <==> hs == []
    ensures text != "" ==> hs == [hs[0]] && text == HexEncode(hs[0])
  {
    hide HexEncode, Split;
    SplitPlain(text);
    NonEmptySnoc([], text);
    assert [] + [text] == [text];
    EncodedLength(hs);
  }

  lemma {:induction false} EncodedAt(hs: seq<Hash32>, i: nat)
    requires i < |hs|
    ensures |Encoded(hs)| == |hs| && Encoded(hs)[i] == HexEncode(hs[i])
  {
    hide HexEncode;
    EncodedLength(hs[..|hs| - 1]);
    if i < |hs| - 1 { EncodedAt(hs[..|hs| - 1], i); }
  }

  lemma {:induction false} AllNonEmpty(parts: seq<string>, enc: string)
    requires AllAre(parts, enc) && enc != ""
    ensures NonEmpty(parts) == parts
  {
    if parts != [] {
      AllNonEmpty(parts[..|parts| - 1], enc);
      assert parts == parts[..|parts| - 1] + [parts[|parts| - 1]];
    }
  }

  /** A list with a comma in it keeps one, whatever is removed: its hashes are not all the same. */
  lemma CommaStays(text: string, hs: seq<Hash32>, h: Hash32)
    requires Denotes(text, hs) && !NoComma(text) && forall i, j :: 0 <= i < j < |hs| ==> hs[i] != hs[j]
    ensures !NoComma(RemoveText(text, h))
  {
    hide HexEncode, Split, Kept, Commas, Encoded, NonEmpty;
    var parts, enc := Split(text), HexEncode(h);
    SplitCount(text);
    if AllAre(parts, enc) {
      AllNonEmpty(parts, enc);
      EncodedLength(hs);
      EncodedAt(hs, 0);
      EncodedAt(hs, 1);
      HexRoundTrip(hs[0]);
      HexRoundTrip(hs[1]);
    } else {
      RemovedToNothing(text, h);
      KeptSome(parts, enc);
      CommasHaveComma(Kept(parts, enc));
    }
  }

  lemma KeptSome(parts: seq<string>, enc: string)
    requires Commas(Kept(parts, enc)) != ""
    ensures Kept(parts, enc) != []
  {
    hide Kept;
  }

  // ---- reading ----

  /** Converting fewer than 32 bytes to a hash panics; of more than 32 the first are taken. */
  datatype Reading = Panicked | Reading(hashes: seq<Hash32>, ok: bool)

  /** Empty parts are skipped, broken numerals skipped and reported. */
  function ReadParts(parts: seq<string>): Reading {
    if parts == [] then Reading([], true)
    else NextPart(ReadParts(parts[..|parts| - 1]), parts[|parts| - 1])
  }

  function NextPart(r: Reading, p: string): Reading {
    if r.Panicked? || p == "" then r
    else
      match HexDecode(p)
      case None => r.(ok := false)
      case Some(b) => if |b| < 32 then Panicked else Reading(r.hashes + [b[..32]], r.ok)
  }

  lemma ReadPartsSnoc(parts: seq<string>, p: string)
    ensures ReadParts(parts + [p]) == NextPart(ReadParts(parts), p)
  {
    hide NextPart;
    assert (parts + [p])[..|parts|] == parts;
  }

  /** A part too short panics; otherwise every broken part is reported, and every other one gives a hash. */
  lemma {:induction false} ReadMeans(parts: seq<string>)
    ensures ReadParts(parts).Panicked? <==> exists i :: 0 <= i < |parts| && ShortPart(parts[i])
    ensures var r := ReadParts(parts);
      r.Reading? ==>
        && (r.ok <==> forall i :: 0 <= i < |parts| ==> !BrokenPart(parts[i]))
        && |r.hashes| == |NonEmpty(parts)| - Broken(parts)
  {
    hide HexDecode;
    if parts != [] {
      var p := parts[..|parts| - 1];
      ReadMeans(p);
      assert parts == p + [parts[|parts| - 1]];
    }
  }

  predicate ShortPart(p: string) {
    p != "" && HexDecode(p).Some? && |HexDecode(p).value| < 32
  }

  predicate BrokenPart(p: string) {
    p != "" && HexDecode(p).None?
  }

  function Broken(parts: seq<string>): nat {
    if parts == [] then 0 else Broken(parts[..|parts| - 1]) + if BrokenPart(parts[|parts| - 1]) then 1 else 0
  }

  /** The loop of `read`: a text that denotes hashes gives exactly those. */
  method Read(val: string) returns (r: Reading)
    ensures r == ReadParts(Split(val))
    ensures forall hs :: Denotes(val, hs) ==> r == Reading(hs, true)
  {
    hide Split, HexDecode, ReadParts;
    var hexValues := Split(val);
    var hashes: seq<Hash32>, ok := [], true;
    ReadNothing();
    for i := 0 to |hexValues|
      invariant ReadParts(hexValues[..i]) == Reading(hashes, ok)
    {
      assert hexValues[..i + 1] == hexValues[..i] + [hexValues[i]];
      ReadPartsSnoc(hexValues[..i], hexValues[i]);
      if hexValues[i] != "" {
        var dec := HexDecode(hexValues[i]);
        if dec.None? {
          ok := false;
        } else if |dec.value| < 32 {
          StaysPanicked(hexValues, i + 1);
          ReadDenoted(val);
          return Panicked;
        } else {
          hashes := hashes + [dec.value[..32]];
        }
      }
    }
    assert hexValues[..|hexValues|] == hexValues;
    ReadDenoted(val);
    return Reading(hashes, ok);
  }

  lemma ReadNothing()
    ensures ReadParts([]) == Reading([], true)
  {
  }

  lemma {:induction false} StaysPanicked(parts: seq<string>, i: nat)
    requires i <= |parts| && ReadParts(parts[..i]).Panicked?
    ensures ReadParts(parts).Panicked?
    decreases |parts| - i
  {
    hide ReadParts;
    if i == |parts| {
      assert parts[..i] == parts;
    } else {
      assert parts[..i + 1] == parts[..i] + [parts[i]];
      ReadPartsSnoc(parts[..i], parts[i]);
      StaysPanicked(parts, i + 1);
    }
  }

  lemma ReadDenoted(val: string)
    ensures forall hs :: Denotes(val, hs) ==> ReadParts(Split(val)) == Reading(hs, true)
  {
    hide NonEmpty, Encoded, Split, ReadParts;
    forall hs | Denotes(val, hs)
      ensures ReadParts(Split(val)) == Reading(hs, true)
    {
      ReadEncoded(Split(val), hs);
    }
  }

  lemma {:induction false} ReadEncoded(parts: seq<string>, hs: seq<Hash32>)
    requires NonEmpty(parts) == Encoded(hs)
    ensures ReadParts(parts) == Reading(hs, true)
  {
    hide HexEncode, HexDecode;
    if parts == [] {
      EncodedLength(hs);
    } else {
      var q, p := parts[..|parts| - 1], parts[|parts| - 1];
      assert parts == q + [p];
      NonEmptySnoc(q, p);
      if p == "" {
        ReadEncoded(q, hs);
      } else {
        EncodedLength(hs);
        var u, h := hs[..|hs| - 1], hs[|hs| - 1];
        LastPart(NonEmpty(q), p, Encoded(u), HexEncode(h));
        ReadEncoded(q, u);
        HexRoundTrip(h);
        assert hs == u + [h] && h[..32] == h;
      }
    }
  }

  lemma LastPart(a: seq<string>, p: string, b: seq<string>, q: string)
    requires a + [p] == b + [q]
    ensures a == b && p == q
  {
    assert (a + [p])[..|a|] == a && (b + [q])[..|b|] == b && |a + [p]| == |b + [q]|;
    assert (a + [p])[|a|] == p && (b + [q])[|b|] == q;
  }
}
