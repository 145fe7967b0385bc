/** The S3 object key of a batch (`s3_object_key`, `encode_s3_key_segment`;
    crates/outpost/src/lib.rs). */
module ObjectKeys {
  import opened Primitives
  import opened Schema
  import Enrichment

  const SLASH: byte := 0x2f
  const PERCENT: byte := 0x25

  predicate Safe(c: byte) {
    0x30 <= c <= 0x39 || 0x41 <= c <= 0x5a || 0x61 <= c <= 0x7a || c == 0x2d || c == 0x5f || c == 0x2e
  }

  function UpperHex(n: nat): byte
    requires n < 16
  {
    if n < 10 then 0x30 + n else 0x37 + n
  }

  function HexValue(c: byte): nat {
    if 0x30 <= c <= 0x39 then c - 0x30 else if 0x41 <= c <= 0x46 then c - 0x37 else 0
  }

  function EncodeByte(c: byte): Bytes {
    if Safe(c) then [c] else [PERCENT, UpperHex(c / 16), UpperHex(c % 16)]
  }

  function EncodeSegment(value: Bytes): Bytes {
    if value == [] then [] else EncodeByte(value[0]) + EncodeSegment(value[1..])
  }

  method EncodeS3KeySegment(value: Bytes) returns (encoded: Bytes)
    ensures encoded == EncodeSegment(value)
  {
    hide EncodeSegment;
    encoded := [];
    assert value[..0] == [];
    EncodeNothing();
    for i := 0 to |value|
      invariant encoded == EncodeSegment(value[..i])
    {
      var c := value[i];
      EncodeMore(value[..i], c);
      assert value[..i] + [c] == value[..i + 1];
      if Safe(c) {
        encoded := encoded + [c];
      } else {
        encoded := encoded + [PERCENT, UpperHex(c / 16), UpperHex(c % 16)];
      }
    }
    assert value[..|value|] == value;
  }

  lemma EncodeNothing()
    ensures EncodeSegment([]) == []
  {
  }

  lemma {:induction false} EncodeMore(value: Bytes, c: byte)
    ensures EncodeSegment(value + [c]) == EncodeSegment(value) + EncodeByte(c)
  {
    hide EncodeByte;
    if value == [] {
      assert [c][1..] == [] && [] + [c] == [c];
    } else {
      EncodeMore(value[1..], c);
      assert (value + [c])[1..] == value[1..] + [c];
    }
  }

  /** The reader of the encoding. */
  function DecodeSegment(s: Bytes): Bytes {
    if s == [] then []
    else if s[0] == PERCENT && |s| >= 3 then [(HexValue(s[1]) * 16 + HexValue(s[2])) % 256] + DecodeSegment(s[3..])
    else [s[0]] + DecodeSegment(s[1..])
  }

  lemma {:induction false} SegmentRoundTrip(value: Bytes)
    ensures DecodeSegment(EncodeSegment(value)) == value
  {
    if value == [] {
    } else {
      SegmentRoundTrip(value[1..]);
      var c, rest, e := value[0], EncodeSegment(value[1..]), EncodeSegment(value);
      if Safe(c) {
        assert e[1..] == rest;
      } else {
        assert e[3..] == rest;
        assert HexValue(UpperHex(c / 16)) == c / 16 && HexValue(UpperHex(c % 16)) == c % 16;
      }
      assert value == [c] + value[1..];
    }
  }

  lemma {:induction false} NoSlash(value: Bytes)
    ensures SLASH !in EncodeSegment(value)
  {
    if value == [] {
    } else {
      NoSlash(value[1..]);
    }
  }

  // ---------------------------------------------------------------- dates

  function Digits2(n: nat): (b: Bytes)
    requires n < 100
    ensures |b| == 2
  {
    [0x30 + n / 10, 0x30 + n % 10]
  }

  function Digits3(n: nat): (b: Bytes)
    requires n < 1000
    ensures |b| == 3
  {
    [0x30 + n / 100] + Digits2(n % 100)
  }

  function Digits4(n: nat): (b: Bytes)
    requires n < 10000
    ensures |b| == 4
  {
    [0x30 + n / 1000] + Digits3(n % 1000)
  }

  /** `{:04}` of a year the `time` crate can represent. */
  function YearText(year: int): Bytes
    requires -9999 <= year <= 9999
  {
    if year >= 0 then Digits4(year)
    else if year > -1000 then [0x2d] + Digits3(-year)
    else [0x2d] + Digits4(-year)
  }

  predicate Calendar(t: Timestamp) {
    -9999 <= t.year <= 9999 && t.month < 100 && t.day < 100 && t.hour < 100
  }

  function DateText(t: Timestamp): Bytes
    requires Calendar(t)
  {
    YearText(t.year) + ([0x2d] + Digits2(t.month) + [0x2d] + Digits2(t.day))
  }

  lemma Digits2Injective(m: nat, n: nat)
    requires m < 100 && n < 100 && Digits2(m) == Digits2(n)
    ensures m == n
  {
    assert Digits2(m)[0] == Digits2(n)[0] && Digits2(m)[1] == Digits2(n)[1];
  }

  lemma Digits3Injective(m: nat, n: nat)
    requires m < 1000 && n < 1000 && Digits3(m) == Digits3(n)
    ensures m == n
  {
    assert Digits3(m)[0] == Digits3(n)[0];
    assert Digits3(m)[1..] == Digits2(m % 100) && Digits3(n)[1..] == Digits2(n % 100);
    Digits2Injective(m % 100, n % 100);
  }

  lemma Digits4Injective(m: nat, n: nat)
    requires m < 10000 && n < 10000 && Digits4(m) == Digits4(n)
    ensures m == n
  {
    hide Digits3;
    assert Digits4(m)[0] == Digits4(n)[0];
    assert Digits4(m)[1..] == Digits3(m % 1000) && Digits4(n)[1..] == Digits3(n % 1000);
    Digits3Injective(m % 1000, n % 1000);
  }

  lemma YearInjective(y: int, z: int)
    requires -9999 <= y <= 9999 && -9999 <= z <= 9999 && YearText(y) == YearText(z)
    ensures y == z
  {
    hide Digits3;
    var a, b := YearText(y), YearText(z);
    assert a[0] == b[0];
    if y >= 0 && z >= 0 {
      Digits4Injective(y, z);
    } else if y < 0 && z < 0 {
      assert a[1..] == b[1..];
      if y > -1000 {
        assert a[1..] == Digits3(-y) && b[1..] == Digits3(-z);
        Digits3Injective(-y, -z);
      } else {
        assert a[1..] == Digits4(-y) && b[1..] == Digits4(-z);
        Digits4Injective(-y, -z);
      }
    }
  }

  lemma DateInjective(t: Timestamp, u: Timestamp)
    requires Calendar(t) && Calendar(u) && DateText(t) == DateText(u)
    ensures t.year == u.year && t.month == u.month && t.day == u.day
  {
    hide YearText, Digits2;
    var x := [0x2d] + Digits2(t.month) + [0x2d] + Digits2(t.day);
    var y := [0x2d] + Digits2(u.month) + [0x2d] + Digits2(u.day);
    SameTails(YearText(t.year), x, YearText(u.year), y);
    YearInjective(t.year, u.year);
    assert x[1..3] == Digits2(t.month) && y[1..3] == Digits2(u.month);
    assert x[4..6] == Digits2(t.day) && y[4..6] == Digits2(u.day);
    Digits2Injective(t.month, u.month);
    Digits2Injective(t.day, u.day);
  }

  lemma SameTails(a: Bytes, x: Bytes, b: Bytes, y: Bytes)
    requires |x| == |y| && a + x == b + y
    ensures a == b && x == y
  {
    assert |a| == |b|;
    assert a == (a + x)[..|a|] && b == (b + y)[..|b|];
    assert x == (a + x)[|a|..] && y == (b + y)[|b|..];
  }

  // ---------------------------------------------------------------- keys

  function Labelled(name: string, value: Bytes): Bytes { Ascii(name) + value }

  /** The path components after the prefix. */
  function Components(b: Batch): seq<Bytes>
    requires Calendar(b.createdAt)
  {
    [Labelled("customer_id=", EncodeSegment(b.tenancy.customerId)),
     Labelled("tenant_id=", EncodeSegment(b.tenancy.tenantId)),
     Labelled("regional_cell_id=", EncodeSegment(b.tenancy.regionalCellId)),
     Labelled("source_id=", EncodeSegment(b.tenancy.sourceId)),
     Labelled("date=", DateText(b.createdAt)),
     Labelled("hour=", Digits2(b.createdAt.hour)),
     EncodeSegment(b.batchId) + Ascii(".ndjson.gz")]
  }

  function Path(components: seq<Bytes>): Bytes {
    if components == [] then [] else [SLASH] + components[0] + Path(components[1..])
  }

  function ObjectKey(prefix: Bytes, b: Batch): Bytes
    requires Calendar(b.createdAt)
  {
    prefix + Path(Components(b))
  }

  ghost predicate SlashFree(components: seq<Bytes>) {
    forall c | c in components :: SLASH !in c
  }

  /** A path can be split again in only one way. */
  lemma {:induction false} PathInjective(xs: seq<Bytes>, ys: seq<Bytes>)
    requires SlashFree(xs) && SlashFree(ys) && Path(xs) == Path(ys)
    ensures xs == ys
    decreases |xs|
  {
    if xs == [] || ys == [] {
    } else {
      var p, q := Path(xs[1..]), Path(ys[1..]);
      assert Path(xs)[1..] == xs[0] + p && Path(ys)[1..] == ys[0] + q;
      FirstComponent(xs[0], p, ys[0], q);
      PathInjective(xs[1..], ys[1..]);
      assert xs == [xs[0]] + xs[1..] && ys == [ys[0]] + ys[1..];
    }
  }

  lemma FirstComponent(a: Bytes, p: Bytes, b: Bytes, q: Bytes)
    requires SLASH !in a && SLASH !in b && a + p == b + q
    requires (p == [] || p[0] == SLASH) && (q == [] || q[0] == SLASH)
    ensures a == b && p == q
  {
    var s, t := a + p, b + q;
    if |a| < |b| {
      LongerComponent(a, p, b, q);
    } else if |b| < |a| {
      LongerComponent(b, q, a, p);
    } else {
      assert s[..|a|] == a && t[..|b|] == b;
      assert s[|a|..] == p && t[|b|..] == q;
    }
  }

  lemma LongerComponent(a: Bytes, p: Bytes, b: Bytes, q: Bytes)
    requires a + p == b + q && |a| < |b| && (p == [] || p[0] == SLASH)
    ensures SLASH in b
  {
    assert (a + p)[|a|] == (b + q)[|a|] == b[|a|];
  }

  lemma DigitsNoSlash(t: Timestamp)
    requires Calendar(t)
    ensures SLASH !in DateText(t) && SLASH !in Digits2(t.hour)
  {
  }

  lemma LabelNoSlash(name: string, value: Bytes)
    requires SLASH !in value && SLASH !in Ascii(name)
    ensures SLASH !in Labelled(name, value)
  {
  }

  lemma ComponentsSlashFree(b: Batch)
    requires Calendar(b.createdAt)
    ensures SlashFree(Components(b))
  {
    hide EncodeSegment, DateText, Digits2, Labelled;
    NoSlash(b.tenancy.customerId);
    NoSlash(b.tenancy.tenantId);
    NoSlash(b.tenancy.regionalCellId);
    NoSlash(b.tenancy.sourceId);
    NoSlash(b.batchId);
    DigitsNoSlash(b.createdAt);
    LabelNoSlash("customer_id=", EncodeSegment(b.tenancy.customerId));
    LabelNoSlash("tenant_id=", EncodeSegment(b.tenancy.tenantId));
    LabelNoSlash("regional_cell_id=", EncodeSegment(b.tenancy.regionalCellId));
    LabelNoSlash("source_id=", EncodeSegment(b.tenancy.sourceId));
    LabelNoSlash("date=", DateText(b.createdAt));
    LabelNoSlash("hour=", Digits2(b.createdAt.hour));
  }

  lemma LabelInjective(name: string, v: Bytes, w: Bytes)
    requires Labelled(name, v) == Labelled(name, w)
    ensures v == w
  {
    assert Labelled(name, v)[|name|..] == v && Labelled(name, w)[|name|..] == w;
  }

  lemma SegmentInjective(v: Bytes, w: Bytes)
    requires EncodeSegment(v) == EncodeSegment(w)
    ensures v == w
  {
    SegmentRoundTrip(v);
    SegmentRoundTrip(w);
  }

  ghost predicate SameKeyFields(a: Batch, b: Batch) {
    && a.tenancy == b.tenancy && a.batchId == b.batchId
    && a.createdAt.year == b.createdAt.year && a.createdAt.month == b.createdAt.month
    && a.createdAt.day == b.createdAt.day && a.createdAt.hour == b.createdAt.hour
  }

  /** Two batches share an object key exactly when customer, tenant, cell, source, date,
      hour and batch id all agree. */
  lemma KeyInjective(prefix: Bytes, a: Batch, b: Batch)
    requires Calendar(a.createdAt) && Calendar(b.createdAt)
    ensures ObjectKey(prefix, a) == ObjectKey(prefix, b) <==> SameKeyFields(a, b)
  {
    hide Path, EncodeSegment, DateText, Digits2, Labelled;
    if SameKeyFields(a, b) {
      SameDate(a.createdAt, b.createdAt);
    }
    if ObjectKey(prefix, a) == ObjectKey(prefix, b) {
      var p, q := Path(Components(a)), Path(Components(b));
      assert (prefix + p)[|prefix|..] == p && (prefix + q)[|prefix|..] == q;
      ComponentsSlashFree(a);
      ComponentsSlashFree(b);
      PathInjective(Components(a), Components(b));
      ComponentsInjective(a, b);
    }
  }

  lemma SameDate(t: Timestamp, u: Timestamp)
    requires Calendar(t) && Calendar(u)
    requires t.year == u.year && t.month == u.month && t.day == u.day
    ensures DateText(t) == DateText(u)
  {
  }

  lemma ComponentsInjective(a: Batch, b: Batch)
    requires Calendar(a.createdAt) && Calendar(b.createdAt) && Components(a) == Components(b)
    ensures SameKeyFields(a, b)
  {
    hide EncodeSegment, DateText, Digits2, Labelled;
    var x, y := Components(a), Components(b);
    assert x[0] == y[0] && x[1] == y[1] && x[2] == y[2] && x[3] == y[3] && x[4] == y[4] && x[5] == y[5] && x[6] == y[6];
    LabelInjective("customer_id=", EncodeSegment(a.tenancy.customerId), EncodeSegment(b.tenancy.customerId));
    SegmentInjective(a.tenancy.customerId, b.tenancy.customerId);
    LabelInjective("tenant_id=", EncodeSegment(a.tenancy.tenantId), EncodeSegment(b.tenancy.tenantId));
    SegmentInjective(a.tenancy.tenantId, b.tenancy.tenantId);
    LabelInjective("regional_cell_id=", EncodeSegment(a.tenancy.regionalCellId), EncodeSegment(b.tenancy.regionalCellId));
    SegmentInjective(a.tenancy.regionalCellId, b.tenancy.regionalCellId);
    LabelInjective("source_id=", EncodeSegment(a.tenancy.sourceId), EncodeSegment(b.tenancy.sourceId));
    SegmentInjective(a.tenancy.sourceId, b.tenancy.sourceId);
    LabelInjective("date=", DateText(a.createdAt), DateText(b.createdAt));
    DateInjective(a.createdAt, b.createdAt);
    LabelInjective("hour=", Digits2(a.createdAt.hour), Digits2(b.createdAt.hour));
    Digits2Injective(a.createdAt.hour, b.createdAt.hour);
    SameTails(EncodeSegment(a.batchId), Ascii(".ndjson.gz"), EncodeSegment(b.batchId), Ascii(".ndjson.gz"));
    SegmentInjective(a.batchId, b.batchId);
  }

  /** Re-enriching a batch, under any mappings, never moves it to another key. */
  lemma EnrichmentKeepsKey(
    prefix: Bytes, identities: map<Bytes, Identity>, pods: map<Bytes, Kubernetes>, cluster: Bytes, b: Batch
  )
    requires Calendar(b.createdAt)
    ensures ObjectKey(prefix, Enrichment.Enriched(identities, pods, cluster, b)) == ObjectKey(prefix, b)
  {
    KeyInjective(prefix, Enrichment.Enriched(identities, pods, cluster, b), b);
  }
}
