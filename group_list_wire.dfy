/** The `extension_data` body of the TLS Supported Groups extension (section
    4.2.7 of RFC 8446): a vector `NamedGroup named_group_list<2..2^16-1>` in
    the presentation language of section 3.4 of RFC 8446, that is a two-byte
    big-endian byte count followed by each group identifier as two big-endian
    bytes, in preference order. Identifiers are carried opaquely: any 16-bit
    value round-trips, whether or not the catalog knows it. */
module GroupListWire {
  import opened Uint16

  /** The most groups whose byte count (two per group) fits the length field. */
  const MaxGroups: nat := 0x7FFF

  /** Why a body was refused; every case is an invalid-extension-data error. */
  datatype DecodeError =
    | MissingLength      // fewer than the two bytes of the length field
    | LengthExceedsData  // the length field announces more bytes than follow it
    | TrailingData       // more bytes follow than the length field announces
    | OddLength          // the announced byte count is not a whole number of groups

  datatype Result<T> = Ok(value: T) | Err(error: DecodeError)

  /** The identifiers of `groups`, two big-endian bytes each, back to back. */
  function EncodeList(groups: seq<U16>): (r: seq<Byte>)
    ensures |r| == 2 * |groups|
  {
    if groups == [] then [] else ToBigEndian(groups[0]) + EncodeList(groups[1..])
  }

  /** The `extension_data` body for `groups`: the byte count, then the list. */
  function Encode(groups: seq<U16>): (r: seq<Byte>)
    requires |groups| <= MaxGroups
    ensures |r| == 2 + 2 * |groups|
    ensures FromBigEndian(r[0], r[1]) == 2 * |groups|
    ensures r[2..] == EncodeList(groups)
  {
    ToBigEndian(2 * |groups|) + EncodeList(groups)
  }

  /** The identifiers held in a byte string of even length, two bytes each. */
  function DecodeList(body: seq<Byte>): (groups: seq<U16>)
    requires |body| % 2 == 0
    ensures |groups| == |body| / 2
  {
    if body == [] then [] else [FromBigEndian(body[0], body[1])] + DecodeList(body[2..])
  }

  /** Parses an `extension_data` body. The declared byte count must match the
      bytes that follow it exactly and be even; duplicates and unknown
      identifiers are kept as received, in order. */
  function Decode(data: seq<Byte>): (r: Result<seq<U16>>)
    ensures r.Ok? ==> 2 <= |data| && |data| == 2 + FromBigEndian(data[0], data[1])
    ensures r.Ok? ==> |r.value| <= MaxGroups && 2 * |r.value| + 2 == |data|
    ensures |data| >= 2 && |data| - 2 < FromBigEndian(data[0], data[1]) ==> r == Err(LengthExceedsData)
  {
    if |data| < 2 then Err(MissingLength)
    else
      var length := FromBigEndian(data[0], data[1]);
      if |data| - 2 < length then Err(LengthExceedsData)
      else if |data| - 2 > length then Err(TrailingData)
      else if length % 2 != 0 then Err(OddLength)
      else Ok(DecodeList(data[2..]))
  }

  /** Identifier `i` of the list occupies bytes `2i` and `2i+1`, high byte first. */
  lemma {:induction false} EncodeListAt(groups: seq<U16>, i: nat)
    requires i < |groups|
    ensures EncodeList(groups)[2 * i] == groups[i] / 0x100
    ensures EncodeList(groups)[2 * i + 1] == groups[i] % 0x100
  {
    if i > 0 {
      EncodeListAt(groups[1..], i - 1);
    }
  }

  /** Identifier `i` read from a body is the value of bytes `2i` and `2i+1`. */
  lemma {:induction false} DecodeListAt(body: seq<Byte>, i: nat)
    requires |body| % 2 == 0 && i < |body| / 2
    ensures DecodeList(body)[i] == body[2 * i] as int * 0x100 + body[2 * i + 1] as int
  {
    if i > 0 {
      DecodeListAt(body[2..], i - 1);
    }
  }

  /** Encoding one more group appends its two bytes. */
  lemma {:induction false} EncodeListAppend(s: seq<U16>, x: U16)
    ensures EncodeList(s + [x]) == EncodeList(s) + ToBigEndian(x)
  {
    if s != [] {
      assert (s + [x])[1..] == s[1..] + [x];
      EncodeListAppend(s[1..], x);
    }
  }

  /** Two more bytes decode to one more group at the end. */
  lemma {:induction false} DecodeListAppend(body: seq<Byte>, hi: Byte, lo: Byte)
    requires |body| % 2 == 0
    ensures DecodeList(body + [hi, lo]) == DecodeList(body) + [FromBigEndian(hi, lo)]
  {
    if body != [] {
      assert (body + [hi, lo])[2..] == body[2..] + [hi, lo];
      DecodeListAppend(body[2..], hi, lo);
    }
  }

  /** Decoding the list encoding of any identifiers gives them back. */
  lemma {:induction false} DecodeListOfEncodeList(groups: seq<U16>)
    ensures DecodeList(EncodeList(groups)) == groups
  {
    if groups != [] {
      var e := EncodeList(groups);
      assert e == ToBigEndian(groups[0]) + EncodeList(groups[1..]);
      assert e[2..] == EncodeList(groups[1..]);
      ReadAfterWrite(groups[0]);
      DecodeListOfEncodeList(groups[1..]);
      assert DecodeList(e) == [groups[0]] + groups[1..];
    }
  }

  /** Encoding the identifiers held in a byte string gives back that string. */
  lemma {:induction false} EncodeListOfDecodeList(body: seq<Byte>)
    requires |body| % 2 == 0
    ensures EncodeList(DecodeList(body)) == body
  {
    if body != [] {
      EncodeListOfDecodeList(body[2..]);
      var d := DecodeList(body);
      assert d[1..] == DecodeList(body[2..]);
      WriteAfterRead(body[0], body[1]);
      assert body == [body[0], body[1]] + body[2..];
    }
  }

  /** Round trip: decoding an encoded body gives back the same identifiers in
      the same order, duplicates and unknown identifiers included. */
  lemma {:induction false} DecodeOfEncode(groups: seq<U16>)
    requires |groups| <= MaxGroups
    ensures Decode(Encode(groups)) == Ok(groups)
  {
    var e := Encode(groups);
    ReadAfterWrite(2 * |groups|);
    DecodeListOfEncodeList(groups);
  }

  /** Decoding accepts only canonical bodies: whatever it accepts is exactly
      the encoding of what it returns. */
  lemma {:induction false} EncodeOfDecode(data: seq<Byte>)
    requires Decode(data).Ok?
    ensures Encode(Decode(data).value) == data
  {
    var groups := Decode(data).value;
    EncodeListOfDecodeList(data[2..]);
    WriteAfterRead(data[0], data[1]);
    assert data == data[..2] + data[2..];
  }

  /** The encoding determines the list: different lists encode differently. */
  lemma {:induction false} EncodeInjective(g: seq<U16>, h: seq<U16>)
    requires |g| <= MaxGroups && |h| <= MaxGroups
    ensures Encode(g) == Encode(h) ==> g == h
  {
    DecodeOfEncode(g);
    DecodeOfEncode(h);
  }

  /** The empty list is the two bytes `00 00`, and those decode to it. */
  lemma EmptyList()
    ensures Encode([]) == [0, 0]
    ensures Decode([0, 0]) == Ok([])
  {
    assert [0, 0][2..] == [];
  }

  /** Test vector: secp256r1 and secp384r1 encode as `00 04 00 17 00 18`. */
  lemma TwoGroupsVector()
    ensures Encode([0x0017, 0x0018]) == [0x00, 0x04, 0x00, 0x17, 0x00, 0x18]
  {
  }

  /** A body announcing two bytes but carrying one, `00 02 00`, is refused. */
  lemma TruncatedBodyRefused()
    ensures Decode([0x00, 0x02, 0x00]) == Err(LengthExceedsData)
  {
  }
}
