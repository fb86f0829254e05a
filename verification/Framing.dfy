/** Length-prefixed byte streams, as they are fed to a hash: repository inputs
    (tools/oracle/parity.py:190-200) and benchmark manifests (scripts/benchmark_cli.py:76-82). */
module Framing {
  import opened Orders

  type byte = x: int | 0 <= x < 256
  type Bytes = seq<byte>

  function Power(n: nat): nat {
    if n == 0 then 1 else 256 * Power(n - 1)
  }

  /** `value.to_bytes(width, "big")`. */
  function BigEndian(value: nat, width: nat): (bytes: Bytes)
    ensures |bytes| == width
  {
    if width == 0 then [] else BigEndian(value / 256, width - 1) + [value % 256]
  }

  function Value(bytes: Bytes): nat {
    if bytes == [] then 0 else 256 * Value(bytes[..|bytes| - 1]) + bytes[|bytes| - 1]
  }

  lemma {:induction false} ValueOfBigEndian(value: nat, width: nat)
    requires value < Power(width)
    ensures Value(BigEndian(value, width)) == value
  {
    if width > 0 {
      ValueOfBigEndian(value / 256, width - 1);
      assert BigEndian(value, width)[..width - 1] == BigEndian(value / 256, width - 1);
    }
  }

  lemma {:induction false} PowerAdds(m: nat, n: nat)
    ensures Power(m + n) == Power(m) * Power(n)
  {
    if m > 0 {
      PowerAdds(m - 1, n);
      assert 256 * Power(m - 1 + n) == (256 * Power(m - 1)) * Power(n);
    }
  }

  lemma EightBytes()
    ensures Power(8) == 0x1_0000_0000_0000_0000 && Power(7) == 0x100_0000_0000_0000
  {
    assert Power(4) == 0x1_0000_0000;
    PowerAdds(4, 4);
    assert Power(3) == 0x100_0000;
    PowerAdds(4, 3);
  }

  function Quotient(value: nat, k: nat): nat {
    if k == 0 then value else Quotient(value / 256, k - 1)
  }

  /** The bytes are the digits to the base 256, the most significant first. */
  lemma {:induction false} BigEndianDigits(value: nat, width: nat, i: nat)
    requires i < width
    ensures BigEndian(value, width)[i] == Quotient(value, width - 1 - i) % 256
  {
    if i < width - 1 {
      BigEndianDigits(value / 256, width - 1, i);
      assert BigEndian(value, width)[i] == BigEndian(value / 256, width - 1)[i];
    }
  }

  // ------------------------------------------------------- one counted field

  function Field(data: Bytes): Bytes {
    BigEndian(|data|, 8) + data
  }

  /** Reads one field off the front of a stream: its data and what follows. */
  function ReadField(stream: Bytes): Option<(Bytes, Bytes)> {
    if |stream| < 8 then None
    else
      var n := Value(stream[..8]);
      if |stream| - 8 < n then None else Some((stream[8..8 + n], stream[8 + n..]))
  }

  lemma ReadsField(data: Bytes, rest: Bytes)
    requires |data| < Power(8)
    ensures ReadField(Field(data) + rest) == Some((data, rest))
  {
    var stream := Field(data) + rest;
    ValueOfBigEndian(|data|, 8);
    assert stream[..8] == BigEndian(|data|, 8);
    assert stream[8..8 + |data|] == data;
    assert stream[8 + |data|..] == rest;
  }

  // ----------------------------------------------------- repository inputs

  datatype Record = Record(path: Bytes, data: Bytes)

  /** Both lengths fit the eight bytes they are written in. */
  predicate Fits(r: Record) {
    |r.path| < 0x1_0000_0000_0000_0000 && |r.data| < 0x1_0000_0000_0000_0000
  }

  function Frame(records: seq<Record>): Bytes {
    if records == [] then []
    else Field(records[0].path) + Field(records[0].data) + Frame(records[1..])
  }

  function Unframe(stream: Bytes): Option<seq<Record>>
    decreases |stream|
  {
    if stream == [] then Some([])
    else
      var path := ReadField(stream);
      if path.None? then None
      else
        var data := ReadField(path.value.1);
        if data.None? then None
        else
          var rest := Unframe(data.value.1);
          if rest.None? then None else Some([Record(path.value.0, data.value.0)] + rest.value)
  }

  lemma UnframeStep(r: Record, tail: Bytes)
    requires Fits(r)
    ensures Unframe(Field(r.path) + (Field(r.data) + tail))
            == if Unframe(tail).None? then None else Some([r] + Unframe(tail).value)
  {
    EightBytes();
    hide Field, ReadField, Power;
    ReadsField(r.path, Field(r.data) + tail);
    ReadsField(r.data, tail);
    FieldIsLong(r.path);
  }

  /** Decoding the stream gives back exactly the records that went in. */
  lemma {:induction false} FrameRoundTrip(records: seq<Record>)
    requires forall i :: 0 <= i < |records| ==> Fits(records[i])
    ensures Unframe(Frame(records)) == Some(records)
  {
    if records != [] {
      hide Field, Unframe, Fits;
      var r, tail := records[0], Frame(records[1..]);
      FrameRoundTrip(records[1..]);
      UnframeStep(r, tail);
      assert Frame(records) == Field(r.path) + (Field(r.data) + tail);
      assert records == [r] + records[1..];
    } else {
      assert Unframe([]) == Some([]);
    }
  }

  /** Each record is the length of its path, the path, the length of its data and the data. */
  lemma FrameLayout(r: Record, rest: seq<Record>)
    ensures Frame([r] + rest) == BigEndian(|r.path|, 8) + r.path + BigEndian(|r.data|, 8) + r.data + Frame(rest)
  {
    hide BigEndian;
    assert ([r] + rest)[1..] == rest;
  }

  lemma FieldIsLong(data: Bytes)
    ensures |Field(data)| == 8 + |data|
  {
  }

  /** So two inputs that feed the hash the same bytes are the same list of records. */
  lemma FrameIsInjective(a: seq<Record>, b: seq<Record>)
    requires forall i :: 0 <= i < |a| ==> Fits(a[i])
    requires forall i :: 0 <= i < |b| ==> Fits(b[i])
    ensures Frame(a) == Frame(b) <==> a == b
  {
    hide Frame, Unframe, Fits;
    FrameRoundTrip(a);
    FrameRoundTrip(b);
  }

  /** A hash object, reduced to the bytes it has been fed. */
  class Digest {
    var stream: Bytes

    constructor ()
      ensures stream == []
    {
      stream := [];
    }

    method Update(bytes: Bytes)
      modifies this
      ensures stream == old(stream) + bytes
    {
      stream := stream + bytes;
    }
  }

  /** One length and what it counts. The length of a byte string in memory is below 2^63, so
      writing it in eight bytes cannot fail. */
  method FeedField(data: Bytes, digest: Digest)
    modifies digest
    ensures digest.stream == old(digest.stream) + Field(data)
  {
    digest.Update(BigEndian(|data|, 8));
    digest.Update(data);
  }

  method FeedRecords(records: seq<Record>, digest: Digest)
    modifies digest
    ensures digest.stream == old(digest.stream) + Frame(records)
  {
    hide Field, Power, Frame;
    ghost var before := digest.stream;
    FrameFrom(records, 0);
    for i := 0 to |records|
      invariant digest.stream + Frame(records[i..]) == before + Frame(records)
    {
      FrameFrom(records, i);
      ghost var start := digest.stream;
      FeedField(records[i].path, digest);
      FeedField(records[i].data, digest);
      assert start + (Field(records[i].path) + Field(records[i].data) + Frame(records[i + 1..]))
             == digest.stream + Frame(records[i + 1..]);
    }
    FrameFrom(records, |records|);
    assert digest.stream + [] == digest.stream;
  }

  lemma FrameFrom(records: seq<Record>, i: nat)
    requires i <= |records|
    ensures i < |records| ==>
              Frame(records[i..]) == Field(records[i].path) + Field(records[i].data) + Frame(records[i + 1..])
    ensures records[0..] == records
    ensures i == |records| ==> Frame(records[i..]) == []
  {
    if i < |records| {
      assert records[i..][0] == records[i] && records[i..][1..] == records[i + 1..];
    }
  }

  // --------------------------------------------------------- manifest fields

  datatype Part = Part(tag: Bytes, value: Bytes)

  /** Labels end where the length begins: a length below 2^56 has a zero first byte. */
  predicate Readable(p: Part) {
    0 !in p.tag && |p.value| < 0x100_0000_0000_0000
  }

  function EncodePart(p: Part): Bytes {
    p.tag + Field(p.value)
  }

  function Manifest(parts: seq<Part>): Bytes {
    if parts == [] then [] else EncodePart(parts[0]) + Manifest(parts[1..])
  }

  function FirstZero(stream: Bytes): nat
    ensures FirstZero(stream) <= |stream|
  {
    if stream == [] || stream[0] == 0 then 0 else 1 + FirstZero(stream[1..])
  }

  function ReadManifest(stream: Bytes): Option<seq<Part>>
    decreases |stream|
  {
    if stream == [] then Some([])
    else
      var n := FirstZero(stream);
      var value := ReadField(stream[n..]);
      if value.None? then None
      else
        var rest := ReadManifest(value.value.1);
        if rest.None? then None else Some([Part(stream[..n], value.value.0)] + rest.value)
  }

  lemma {:induction false} FirstZeroAfterLabel(tag: Bytes, rest: Bytes)
    requires 0 !in tag && rest != [] && rest[0] == 0
    ensures FirstZero(tag + rest) == |tag|
  {
    if tag == [] {
      assert tag + rest == rest;
    } else {
      assert (tag + rest)[1..] == tag[1..] + rest;
      FirstZeroAfterLabel(tag[1..], rest);
    }
  }

  lemma {:induction false} SmallStartsWithZero(value: nat, width: nat)
    requires value < Power(width)
    ensures BigEndian(value, width + 1)[0] == 0
  {
    if width > 0 {
      SmallStartsWithZero(value / 256, width - 1);
      assert BigEndian(value, width + 1)[0] == BigEndian(value / 256, width)[0];
    }
  }

  /** A short value's field starts with a zero byte. */
  lemma ShortField(value: Bytes, rest: Bytes)
    requires |value| < 0x100_0000_0000_0000
    ensures (Field(value) + rest)[0] == 0
    ensures ReadField(Field(value) + rest) == Some((value, rest))
  {
    EightBytes();
    hide Power, Value;
    SmallStartsWithZero(|value|, 7);
    assert (Field(value) + rest)[0] == BigEndian(|value|, 8)[0];
    ReadsField(value, rest);
  }

  lemma PartReads(p: Part, rest: Bytes)
    requires Readable(p)
    ensures var stream := EncodePart(p) + rest;
            && FirstZero(stream) == |p.tag|
            && stream[..|p.tag|] == p.tag
            && ReadField(stream[|p.tag|..]) == Some((p.value, rest))
  {
    hide Field, ReadField;
    var stream, body := EncodePart(p) + rest, Field(p.value) + rest;
    ShortField(p.value, rest);
    FieldIsLong(p.value);
    FirstZeroAfterLabel(p.tag, body);
    assert stream == p.tag + body;
    assert stream[|p.tag|..] == body;
  }

  /** A manifest whose labels hold no zero byte and whose values are shorter than 2^56 decodes to
      exactly the fields that were recorded. */
  lemma {:induction false} ManifestRoundTrip(parts: seq<Part>)
    requires forall i :: 0 <= i < |parts| ==> Readable(parts[i])
    ensures ReadManifest(Manifest(parts)) == Some(parts)
  {
    if parts != [] {
      hide Readable, FirstZero, ReadField;
      var p, tail := parts[0], Manifest(parts[1..]);
      ManifestRoundTrip(parts[1..]);
      PartReads(p, tail);
      PartIsLong(p);
      assert parts == [p] + parts[1..];
    }
  }

  /** Each field is its label, the length of its value and the value. */
  lemma ManifestLayout(p: Part, rest: seq<Part>)
    ensures Manifest([p] + rest) == p.tag + BigEndian(|p.value|, 8) + p.value + Manifest(rest)
  {
    hide BigEndian;
    assert ([p] + rest)[1..] == rest;
    assert p.tag + (BigEndian(|p.value|, 8) + p.value) == p.tag + BigEndian(|p.value|, 8) + p.value;
  }

  lemma PartIsLong(p: Part)
    ensures |EncodePart(p)| == |p.tag| + 8 + |p.value|
  {
  }

  lemma ManifestIsInjective(a: seq<Part>, b: seq<Part>)
    requires forall i :: 0 <= i < |a| ==> Readable(a[i])
    requires forall i :: 0 <= i < |b| ==> Readable(b[i])
    ensures Manifest(a) == Manifest(b) <==> a == b
  {
    hide Manifest, ReadManifest, Readable;
    ManifestRoundTrip(a);
    ManifestRoundTrip(b);
  }

  lemma {:induction false} ManifestConcat(a: seq<Part>, b: seq<Part>)
    ensures Manifest(a + b) == Manifest(a) + Manifest(b)
  {
    hide EncodePart;
    if a == [] {
      assert a + b == b;
    } else {
      assert (a + b)[0] == a[0] && (a + b)[1..] == a[1..] + b;
      ManifestConcat(a[1..], b);
    }
  }

  /** No label continues another one with a zero byte, so where a length begins is no question. Labels
      without zero bytes are such, and so is any single label. */
  ghost predicate Unmistakable(labels: set<Bytes>) {
    forall l, m :: l in labels && m in labels && |l| < |m| && m[..|l|] == l ==> m[|l|] != 0
  }

  ghost predicate LabelledBy(parts: seq<Part>, labels: set<Bytes>) {
    forall i :: 0 <= i < |parts| ==> parts[i].tag in labels && |parts[i].value| < 0x100_0000_0000_0000
  }

  /** If two fields start one stream, the longer label continues the shorter with a zero byte. */
  lemma LabelThenZero(p: Part, q: Part, x: Bytes, y: Bytes)
    requires |p.value| < 0x100_0000_0000_0000 && EncodePart(p) + x == EncodePart(q) + y
    ensures |p.tag| <= |q.tag| ==> q.tag[..|p.tag|] == p.tag
    ensures |p.tag| < |q.tag| ==> q.tag[|p.tag|] == 0
  {
    hide Field, ReadField;
    var stream := EncodePart(p) + x;
    ShortField(p.value, x);
    FieldIsLong(p.value);
    assert stream == p.tag + (Field(p.value) + x);
    assert stream == q.tag + (Field(q.value) + y);
    if |p.tag| <= |q.tag| {
      assert q.tag[..|p.tag|] == stream[..|p.tag|] == p.tag;
      assert |p.tag| < |q.tag| ==> q.tag[|p.tag|] == stream[|p.tag|];
    }
  }

  lemma SameFirstPart(labels: set<Bytes>, p: Part, q: Part, x: Bytes, y: Bytes)
    requires Unmistakable(labels) && p.tag in labels && q.tag in labels
    requires |p.value| < 0x100_0000_0000_0000 && |q.value| < 0x100_0000_0000_0000
    requires EncodePart(p) + x == EncodePart(q) + y
    ensures p == q && x == y
  {
    hide Field, ReadField;
    LabelThenZero(p, q, x, y);
    LabelThenZero(q, p, y, x);
    assert |p.tag| == |q.tag|;
    var stream := EncodePart(p) + x;
    assert stream == p.tag + (Field(p.value) + x);
    assert stream == q.tag + (Field(q.value) + y);
    assert p.tag == q.tag;
    assert Field(p.value) + x == stream[|p.tag|..] == Field(q.value) + y;
    ShortField(p.value, x);
    ShortField(q.value, y);
  }

  /** Manifests over such labels, with values shorter than 2^56, have the same bytes only if they
      have the same fields. */
  lemma {:induction false} ManifestIsUnique(labels: set<Bytes>, a: seq<Part>, b: seq<Part>)
    requires Unmistakable(labels) && LabelledBy(a, labels) && LabelledBy(b, labels)
    ensures Manifest(a) == Manifest(b) <==> a == b
    decreases |a|
  {
    hide EncodePart, Unmistakable, LabelledBy;
    if a != [] && b != [] {
      FirstLabelled(a, labels);
      FirstLabelled(b, labels);
      if Manifest(a) == Manifest(b) {
        SameFirstPart(labels, a[0], b[0], Manifest(a[1..]), Manifest(b[1..]));
        ManifestIsUnique(labels, a[1..], b[1..]);
        assert a == [a[0]] + a[1..] && b == [b[0]] + b[1..];
      }
    } else if a != [] {
      PartIsLong(a[0]);
    } else if b != [] {
      PartIsLong(b[0]);
    }
  }

  lemma FirstLabelled(parts: seq<Part>, labels: set<Bytes>)
    requires parts != [] && LabelledBy(parts, labels)
    ensures parts[0].tag in labels && |parts[0].value| < 0x100_0000_0000_0000 && LabelledBy(parts[1..], labels)
  {
  }

  /** Labels are not length-prefixed: any field and the label after it can be read as one label, so
      labels do have to be told apart. */
  lemma FieldReadsAsLabel(p: Part, q: Part)
    ensures Manifest([p, q]) == Manifest([Part(EncodePart(p) + q.tag, q.value)])
  {
    hide Field;
    var r := Part(EncodePart(p) + q.tag, q.value);
    assert [p, q][1..] == [q] && [q][1..] == [] && [r][1..] == [];
    assert Manifest([q]) == EncodePart(q) && Manifest([r]) == EncodePart(r);
  }

  /** Adds one field: the tag, the length, the value. */
  method ManifestPart(hasher: Digest, tag: Bytes, value: Bytes)
    modifies hasher
    ensures hasher.stream == old(hasher.stream) + EncodePart(Part(tag, value))
  {
    hasher.Update(tag);
    FeedField(value, hasher);
  }
}
