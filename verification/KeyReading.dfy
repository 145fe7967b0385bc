/** Reading an object key: split at the slashes, each labelled component gives back the
    field its label names. */
module KeyReading {
  import opened Primitives
  import opened Schema
  import opened ObjectKeys
  import T = BsonTree

  const UPPER_DIGITS: string := "0123456789ABCDEF"

  predicate PlainChar(c: byte) {
    var x: int := c;
    || 'a' as int <= x <= 'z' as int || 'A' as int <= x <= 'Z' as int || '0' as int <= x <= '9' as int
    || x == '-' as int || x == '_' as int || x == '.' as int
  }

  /** Letters, digits and `-_.` stand for themselves, every other byte is a percent sign and
      two upper-case digits. */
  lemma ByteEncoded(c: byte)
    ensures EncodeByte(c) ==
            if PlainChar(c) then [c]
            else ['%' as int % 256, UPPER_DIGITS[c / 16] as int % 256, UPPER_DIGITS[c % 16] as int % 256]
  {
    UpperDigit(c / 16);
    UpperDigit(c % 16);
  }

  lemma UpperDigit(n: nat)
    requires n < 16
    ensures UpperHex(n) == UPPER_DIGITS[n] as int % 256
  {
  }

  /** A segment is encoded byte by byte. */
  lemma {:induction false} SegmentEncoded(value: Bytes)
    ensures EncodeSegment(value) == Concat(seq(|value|, i requires 0 <= i < |value| => EncodeByte(value[i])))
  {
    hide EncodeByte;
    var pieces := seq(|value|, i requires 0 <= i < |value| => EncodeByte(value[i]));
    if value == [] {
    } else {
      SegmentEncoded(value[1..]);
      var rest := value[1..];
      assert pieces[1..] == seq(|rest|, i requires 0 <= i < |rest| => EncodeByte(rest[i]));
    }
  }

  // ---------------------------------------------------------------- splitting

  /** How far the first component reaches. */
  function UpToSlash(p: Bytes): (n: nat)
    ensures n <= |p| && SLASH !in p[..n] && (n < |p| ==> p[n] == SLASH)
  {
    if p == [] || p[0] == SLASH then 0
    else
      var n := UpToSlash(p[1..]);
      assert p[..1 + n] == [p[0]] + p[1..][..n];
      1 + n
  }

  function Split(p: Bytes): seq<Bytes>
    decreases |p|
  {
    if p == [] then []
    else
      var n := UpToSlash(p[1..]);
      [p[1..1 + n]] + Split(p[1 + n..])
  }

  lemma {:induction false} SplitPath(xs: seq<Bytes>)
    requires SlashFree(xs)
    ensures Split(Path(xs)) == xs
  {
    if xs == [] {
    } else {
      var p, rest := Path(xs), Path(xs[1..]);
      assert p[1..] == xs[0] + rest;
      PathStart(xs[1..]);
      SplitFirst(xs[0], rest);
      assert p[1..1 + |xs[0]|] == xs[0] && p[1 + |xs[0]|..] == rest;
      SplitPath(xs[1..]);
    }
  }

  lemma PathStart(xs: seq<Bytes>)
    ensures Path(xs) == [] || Path(xs)[0] == SLASH
  {
  }

  lemma {:induction false} SplitFirst(x: Bytes, rest: Bytes)
    requires SLASH !in x && (rest == [] || rest[0] == SLASH)
    ensures UpToSlash(x + rest) == |x|
  {
    if x == [] {
      assert x + rest == rest;
    } else {
      assert (x + rest)[1..] == x[1..] + rest;
      SplitFirst(x[1..], rest);
    }
  }

  // ---------------------------------------------------------------- reading

  /** What follows the label in the first component that has it. */
  function After(components: seq<Bytes>, name: string): Option<Bytes> {
    if components == [] then None
    else if Ascii(name) <= components[0] then Some(components[0][|name|..])
    else After(components[1..], name)
  }

  function FieldOf(components: seq<Bytes>, name: string): Option<Bytes> {
    var text :- After(components, name);
    Some(DecodeSegment(text))
  }

  /** The number in these places of a text. */
  function NumberAt(text: Bytes, from: nat, to: nat): int
    requires from <= to <= |text|
  {
    T.DigitsValue(text[from..to])
  }

  /** The key says this about the batch, component by component. */
  ghost predicate KeySays(components: seq<Bytes>, b: Batch)
    requires Calendar(b.createdAt)
  {
    && FieldOf(components, "customer_id=") == Some(b.tenancy.customerId)
    && FieldOf(components, "tenant_id=") == Some(b.tenancy.tenantId)
    && FieldOf(components, "regional_cell_id=") == Some(b.tenancy.regionalCellId)
    && FieldOf(components, "source_id=") == Some(b.tenancy.sourceId)
    && After(components, "date=") == Some(DateText(b.createdAt))
    && After(components, "hour=") == Some(Digits2(b.createdAt.hour))
    && |components| == 7
    && |components[6]| >= 10 && components[6][|components[6]| - 10..] == Ascii(".ndjson.gz")
    && DecodeSegment(components[6][..|components[6]| - 10]) == b.batchId
  }

  lemma Skip(name: string, value: Bytes, other: string, rest: seq<Bytes>)
    requires |name| > 0 && |other| > 0 && Ascii(name)[0] != Ascii(other)[0]
    ensures After([Labelled(other, value)] + rest, name) == After(rest, name)
  {
    var c := Labelled(other, value);
    assert c[0] == Ascii(other)[0];
    assert ([c] + rest)[1..] == rest;
  }

  lemma Take(name: string, value: Bytes, rest: seq<Bytes>)
    ensures After([Labelled(name, value)] + rest, name) == Some(value)
  {
    var c := Labelled(name, value);
    assert Ascii(name) <= c && c[|name|..] == value;
  }

  /** The key of a batch, split at its slashes, gives back customer, tenant, cell, source and
      batch id, and the date and hour as they are written. */
  lemma KeyReads(prefix: Bytes, b: Batch)
    requires Calendar(b.createdAt)
    ensures var key := ObjectKey(prefix, b);
            prefix <= key && KeySays(Split(key[|prefix|..]), b)
  {
    hide EncodeSegment, DecodeSegment, DateText, Digits2, Path, Split, Labelled, After;
    var key, cs := ObjectKey(prefix, b), Components(b);
    assert key[|prefix|..] == Path(cs);
    ComponentsSlashFree(b);
    SplitPath(cs);
    ComponentsRead(b);
    SegmentRoundTrip(b.tenancy.customerId);
    SegmentRoundTrip(b.tenancy.tenantId);
    SegmentRoundTrip(b.tenancy.regionalCellId);
    SegmentRoundTrip(b.tenancy.sourceId);
    SegmentRoundTrip(b.batchId);
    var last := EncodeSegment(b.batchId) + Ascii(".ndjson.gz");
    assert last[|last| - 10..] == Ascii(".ndjson.gz") && last[..|last| - 10] == EncodeSegment(b.batchId);
  }

  lemma ComponentsRead(b: Batch)
    requires Calendar(b.createdAt)
    ensures var cs := Components(b);
            && After(cs, "customer_id=") == Some(EncodeSegment(b.tenancy.customerId))
            && After(cs, "tenant_id=") == Some(EncodeSegment(b.tenancy.tenantId))
            && After(cs, "regional_cell_id=") == Some(EncodeSegment(b.tenancy.regionalCellId))
            && After(cs, "source_id=") == Some(EncodeSegment(b.tenancy.sourceId))
            && After(cs, "date=") == Some(DateText(b.createdAt))
            && After(cs, "hour=") == Some(Digits2(b.createdAt.hour))
  {
    hide EncodeSegment, DateText, Digits2, Labelled, After;
    var customer, tenant := EncodeSegment(b.tenancy.customerId), EncodeSegment(b.tenancy.tenantId);
    var cell, source := EncodeSegment(b.tenancy.regionalCellId), EncodeSegment(b.tenancy.sourceId);
    var date, hour := DateText(b.createdAt), Digits2(b.createdAt.hour);
    var cs := Components(b);
    var c1, c2, c3, c4, c5 := cs[1..], cs[2..], cs[3..], cs[4..], cs[5..];
    assert cs == [Labelled("customer_id=", customer)] + c1 && c1 == [Labelled("tenant_id=", tenant)] + c2;
    assert c2 == [Labelled("regional_cell_id=", cell)] + c3 && c3 == [Labelled("source_id=", source)] + c4;
    assert c4 == [Labelled("date=", date)] + c5 && c5 == [Labelled("hour=", hour)] + cs[6..];
    Take("customer_id=", customer, c1);
    Take("tenant_id=", tenant, c2);
    Take("regional_cell_id=", cell, c3);
    Take("source_id=", source, c4);
    Take("date=", date, c5);
    Take("hour=", hour, cs[6..]);
    SkipCustomer(customer, c1);
    SkipTenant(tenant, c2);
    SkipCell(cell, c3);
    SkipSource(source, c4);
    Skip("hour=", date, "date=", c5);
  }

  lemma SkipCustomer(value: Bytes, rest: seq<Bytes>)
    ensures forall name | name in {"tenant_id=", "regional_cell_id=", "source_id=", "date=", "hour="} ::
              After([Labelled("customer_id=", value)] + rest, name) == After(rest, name)
  {
    hide Labelled, After;
    Skip("tenant_id=", value, "customer_id=", rest);
    Skip("regional_cell_id=", value, "customer_id=", rest);
    Skip("source_id=", value, "customer_id=", rest);
    Skip("date=", value, "customer_id=", rest);
    Skip("hour=", value, "customer_id=", rest);
  }

  lemma SkipTenant(value: Bytes, rest: seq<Bytes>)
    ensures forall name | name in {"regional_cell_id=", "source_id=", "date=", "hour="} ::
              After([Labelled("tenant_id=", value)] + rest, name) == After(rest, name)
  {
    hide Labelled, After;
    Skip("regional_cell_id=", value, "tenant_id=", rest);
    Skip("source_id=", value, "tenant_id=", rest);
    Skip("date=", value, "tenant_id=", rest);
    Skip("hour=", value, "tenant_id=", rest);
  }

  lemma SkipCell(value: Bytes, rest: seq<Bytes>)
    ensures forall name | name in {"source_id=", "date=", "hour="} ::
              After([Labelled("regional_cell_id=", value)] + rest, name) == After(rest, name)
  {
    hide Labelled, After;
    Skip("source_id=", value, "regional_cell_id=", rest);
    Skip("date=", value, "regional_cell_id=", rest);
    Skip("hour=", value, "regional_cell_id=", rest);
  }

  lemma SkipSource(value: Bytes, rest: seq<Bytes>)
    ensures forall name | name in {"date=", "hour="} ::
              After([Labelled("source_id=", value)] + rest, name) == After(rest, name)
  {
    hide Labelled, After;
    Skip("date=", value, "source_id=", rest);
    Skip("hour=", value, "source_id=", rest);
  }

  // ---------------------------------------------------------------- dates

  lemma TwoDigits(n: nat)
    requires n < 100
    ensures T.DigitsValue(Digits2(n)) == n
  {
    var d := Digits2(n);
    assert d[..1] == [d[0]] && [d[0]][..0] == [];
    assert T.DigitsValue([d[0]]) == n / 10;
  }

  lemma FourDigits(n: nat)
    requires n < 10000
    ensures T.DigitsValue(Digits4(n)) == n
  {
    var d := Digits4(n);
    var a, b, c := [d[0]], [d[0], d[1]], [d[0], d[1], d[2]];
    assert d[..3] == c && c[..2] == b && b[..1] == a && a[..0] == [];
    assert T.DigitsValue(a) == n / 1000;
    assert T.DigitsValue(b) == n / 100;
    assert T.DigitsValue(c) == n / 10;
  }

  /** A date of the common era is written year, month, day, with two hyphens, and the hour in
      two digits. */
  lemma DateReads(t: Timestamp)
    requires Calendar(t) && 0 <= t.year
    ensures var text := DateText(t);
            && |text| == 10 && text[4] == '-' as int && text[7] == '-' as int
            && NumberAt(text, 0, 4) == t.year && NumberAt(text, 5, 7) == t.month && NumberAt(text, 8, 10) == t.day
            && |Digits2(t.hour)| == 2 && NumberAt(Digits2(t.hour), 0, 2) == t.hour
  {
    hide T.DigitsValue;
    FourDigits(t.year);
    TwoDigits(t.month);
    TwoDigits(t.day);
    TwoDigits(t.hour);
    var text := DateText(t);
    assert text[0..4] == Digits4(t.year) && text[5..7] == Digits2(t.month) && text[8..10] == Digits2(t.day);
    assert Digits2(t.hour)[0..2] == Digits2(t.hour);
  }
}
