/** DNS names with compression pointers (`parse_dns_name`, `decode_dns_message`;
    sections 2.3.4, 3.1 and 4.1.4 of RFC 1035). */
module Dns {
  import opened Primitives

  datatype DnsError =
    | TruncatedHeader | TruncatedInteger | TruncatedName | TruncatedPointer | PointerLoop
    | InvalidLabelType | TruncatedLabel | UnsupportedBytes | NameTooLong

  const MAX_JUMPS := 16
  const MAX_OCTETS := 254

  predicate LabelByte(c: byte) {
    0x30 <= c <= 0x39 || 0x41 <= c <= 0x5a || 0x61 <= c <= 0x7a || c == 0x2d || c == 0x5f
  }

  predicate LabelText(text: Bytes) {
    forall c | c in text :: LabelByte(c)
  }

  function PointerTarget(high: byte, low: byte): nat
    requires high >= 0xc0
  {
    (high as int - 0xc0) * 256 + low
  }

  function Join(labels: seq<Bytes>): Bytes {
    if labels == [] then []
    else if |labels| == 1 then labels[0]
    else labels[0] + [0x2e] + Join(labels[1..])
  }

  // ---------------------------------------------------------------- the walk

  datatype Walked = Walked(labels: seq<Bytes>, end: nat)

  /** The rest of the walk from `cursor`, with `jumps` pointers followed and `octets`
      name octets collected so far. Every step uses up a jump or some octets, so the
      walk ends on every message, pointer cycles included. */
  function Walk(b: Bytes, cursor: nat, jumps: nat, octets: nat): Result<Walked, DnsError>
    requires jumps <= MAX_JUMPS && octets <= MAX_OCTETS
    decreases MAX_JUMPS - jumps + (MAX_OCTETS - octets)
  {
    if cursor >= |b| then Err(TruncatedName)
    else
      var length := b[cursor];
      if length >= 0xc0 then
        if cursor + 1 >= |b| then Err(TruncatedPointer)
        else if jumps + 1 > MAX_JUMPS then Err(PointerLoop)
        else
          var w :- Walk(b, PointerTarget(length, b[cursor + 1]), jumps + 1, octets);
          Ok(Walked(w.labels, cursor + 2))
      else if length >= 0x40 then Err(InvalidLabelType)
      else if length == 0 then Ok(Walked([], cursor + 1))
      else
        var end := cursor + 1 + length;
        if end > |b| then Err(TruncatedLabel)
        else if !LabelText(b[cursor + 1..end]) then Err(UnsupportedBytes)
        else if octets + length + 1 > MAX_OCTETS then Err(NameTooLong)
        else
          var w :- Walk(b, end, jumps, octets + length + 1);
          Ok(Walked([b[cursor + 1..end]] + w.labels, w.end))
  }

  function ParseName(b: Bytes, offset: nat): Result<(Bytes, nat), DnsError> {
    var w :- Walk(b, offset, 0, 0);
    Ok((Lower(Join(w.labels)), w.end))
  }

  /** What the loop returns once the rest of the walk is known. */
  ghost function Finish(
    labels: seq<Bytes>, afterName: Option<nat>, rest: Result<Walked, DnsError>
  ): Result<Walked, DnsError> {
    match rest
    case Err(e) => Err(e)
    case Ok(w) => Ok(Walked(labels + w.labels, if afterName.Some? then afterName.value else w.end))
  }

  lemma FinishNothing(rest: Result<Walked, DnsError>)
    ensures Finish([], None, rest) == rest
  {
    if rest.Ok? { assert [] + rest.value.labels == rest.value.labels; }
  }

  /** The walk with one more label in front. */
  ghost function WithLabel(text: Bytes, rest: Result<Walked, DnsError>): Result<Walked, DnsError> {
    match rest
    case Err(e) => Err(e)
    case Ok(w) => Ok(Walked([text] + w.labels, w.end))
  }

  lemma FinishLabel(labels: seq<Bytes>, text: Bytes, afterName: Option<nat>, rest: Result<Walked, DnsError>)
    ensures Finish(labels, afterName, WithLabel(text, rest)) == Finish(labels + [text], afterName, rest)
  {
    if rest.Ok? { assert labels + ([text] + rest.value.labels) == (labels + [text]) + rest.value.labels; }
  }

  method ParseDnsName(b: Bytes, offset: nat) returns (r: Result<(Bytes, nat), DnsError>)
    ensures r == ParseName(b, offset)
  {
    hide LabelText, Join, Lower, PointerTarget;
    var labels: seq<Bytes> := [];
    var cursor: nat := offset;
    var afterName: Option<nat> := None;
    var jumps: nat, octets: nat := 0, 0;
    FinishNothing(Walk(b, offset, 0, 0));
    while true
      invariant jumps <= MAX_JUMPS && octets <= MAX_OCTETS
      invariant Walk(b, offset, 0, 0) == Finish(labels, afterName, Walk(b, cursor, jumps, octets))
      decreases MAX_JUMPS - jumps + (MAX_OCTETS - octets)
    {
      if cursor >= |b| { return Err(TruncatedName); }
      var length := b[cursor];
      if length >= 0xc0 {
        if cursor + 1 >= |b| { return Err(TruncatedPointer); }
        if afterName.None? { afterName := Some(cursor + 2); }
        cursor := PointerTarget(length, b[cursor + 1]);
        jumps := jumps + 1;
        if jumps > MAX_JUMPS { return Err(PointerLoop); }
        continue;
      }
      if length >= 0x40 { return Err(InvalidLabelType); }
      cursor := cursor + 1;
      if length == 0 {
        assert labels + [] == labels;
        return Ok((Lower(Join(labels)), if afterName.Some? then afterName.value else cursor));
      }
      var end := cursor + length;
      if end > |b| { return Err(TruncatedLabel); }
      var text := b[cursor..end];
      if !LabelText(text) { return Err(UnsupportedBytes); }
      octets := octets + |text| + 1;
      if octets > MAX_OCTETS { return Err(NameTooLong); }
      FinishLabel(labels, text, afterName, Walk(b, end, jumps, octets));
      labels := labels + [text];
      cursor := end;
    }
  }

  // ---------------------------------------------------------------- names as RFC 1035 has them

  /** How a name is spelled in a message: labels, pointers to the rest, a final zero. */
  datatype Spelling = Root | Label(rest: Spelling) | Pointer(rest: Spelling)

  /** Letters, digits, hyphen and underscore. */
  predicate NameChar(c: byte) {
    var x: int := c;
    || 'a' as int <= x <= 'z' as int || 'A' as int <= x <= 'Z' as int || '0' as int <= x <= '9' as int
    || x == '-' as int || x == '_' as int
  }

  /** The bytes from `cursor` spell a name this way. */
  ghost predicate Spells(b: Bytes, cursor: nat, s: Spelling)
    decreases s
  {
    match s
    case Root => cursor < |b| && b[cursor] == 0
    case Label(rest) =>
      && cursor < |b| && 1 <= b[cursor] <= 63
      && cursor + 1 + b[cursor] <= |b|
      && (forall c | c in b[cursor + 1..cursor + 1 + b[cursor]] :: NameChar(c))
      && Spells(b, cursor + 1 + b[cursor], rest)
    case Pointer(rest) =>
      cursor + 1 < |b| && b[cursor] >= 192 && Spells(b, (b[cursor] as int - 192) * 256 + b[cursor + 1], rest)
  }

  ghost function LabelsOf(b: Bytes, cursor: nat, s: Spelling): seq<Bytes>
    requires Spells(b, cursor, s)
    decreases s
  {
    match s
    case Root => []
    case Label(rest) =>
      [b[cursor + 1..cursor + 1 + b[cursor]]] + LabelsOf(b, cursor + 1 + b[cursor], rest)
    case Pointer(rest) => LabelsOf(b, (b[cursor] as int - 192) * 256 + b[cursor + 1], rest)
  }

  ghost function Jumps(s: Spelling): nat {
    match s
    case Root => 0
    case Label(rest) => Jumps(rest)
    case Pointer(rest) => 1 + Jumps(rest)
  }

  /** Octets of the name: each label and its length byte. */
  function Octets(labels: seq<Bytes>): nat {
    if labels == [] then 0 else |labels[0]| + 1 + Octets(labels[1..])
  }

  /** Where the name's own bytes end: after its first pointer, or its final zero. */
  ghost function EndOf(b: Bytes, cursor: nat, s: Spelling): nat
    requires Spells(b, cursor, s)
    decreases s
  {
    match s
    case Root => cursor + 1
    case Label(rest) => EndOf(b, cursor + 1 + b[cursor], rest)
    case Pointer(_) => cursor + 2
  }

  lemma {:induction false} SpellingUnique(b: Bytes, cursor: nat, s: Spelling, t: Spelling)
    requires Spells(b, cursor, s) && Spells(b, cursor, t)
    ensures s == t
    decreases s
  {
    match s
    case Root =>
    case Label(rest) => SpellingUnique(b, cursor + 1 + b[cursor], rest, t.rest);
    case Pointer(rest) => SpellingUnique(b, PointerTarget(b[cursor], b[cursor + 1]), rest, t.rest);
  }

  lemma LabelChars(text: Bytes)
    ensures LabelText(text) <==> forall c | c in text :: NameChar(c)
  {
    forall c: byte ensures LabelByte(c) <==> NameChar(c) {
    }
  }

  /** The walk accepts a spelling within the limits, and returns what it spells. */
  lemma {:induction false} WalkSpelled(b: Bytes, cursor: nat, jumps: nat, octets: nat, s: Spelling)
    requires Spells(b, cursor, s)
    requires jumps + Jumps(s) <= MAX_JUMPS && octets + Octets(LabelsOf(b, cursor, s)) <= MAX_OCTETS
    ensures Walk(b, cursor, jumps, octets) == Ok(Walked(LabelsOf(b, cursor, s), EndOf(b, cursor, s)))
    decreases s
  {
    hide LabelText;
    match s
    case Root =>
    case Label(rest) =>
      LabelChars(b[cursor + 1..cursor + 1 + b[cursor]]);
      var end := cursor + 1 + b[cursor];
      assert LabelsOf(b, cursor, s)[1..] == LabelsOf(b, end, rest);
      WalkSpelled(b, end, jumps, octets + b[cursor] + 1, rest);
    case Pointer(rest) => WalkSpelled(b, PointerTarget(b[cursor], b[cursor + 1]), jumps + 1, octets, rest);
  }

  /** The spelling behind a walk that succeeds. */
  ghost function SpellingOf(b: Bytes, cursor: nat, jumps: nat, octets: nat): (s: Spelling)
    requires jumps <= MAX_JUMPS && octets <= MAX_OCTETS && Walk(b, cursor, jumps, octets).Ok?
    ensures Spells(b, cursor, s)
    ensures jumps + Jumps(s) <= MAX_JUMPS && octets + Octets(LabelsOf(b, cursor, s)) <= MAX_OCTETS
    decreases MAX_JUMPS - jumps + (MAX_OCTETS - octets)
  {
    if b[cursor] >= 0xc0 then Pointer(SpellingOf(b, PointerTarget(b[cursor], b[cursor + 1]), jumps + 1, octets))
    else if b[cursor] == 0 then Root
    else
      var end := cursor + 1 + b[cursor];
      var rest := SpellingOf(b, end, jumps, octets + b[cursor] + 1);
      assert LabelsOf(b, cursor, Label(rest))[1..] == LabelsOf(b, end, rest);
      Label(rest)
  }

  /** `parse_dns_name` succeeds exactly on the names spelled with at most 16 pointers and
      254 octets, and then returns that name in lower case and the end of its bytes. */
  lemma NameExpansion(b: Bytes, offset: nat)
    ensures ParseName(b, offset).Ok? <==>
            exists s :: Spells(b, offset, s) && Jumps(s) <= 16 && Octets(LabelsOf(b, offset, s)) <= 254
    ensures forall s :: Spells(b, offset, s) && ParseName(b, offset).Ok? ==>
              ParseName(b, offset) == Ok((Lower(Join(LabelsOf(b, offset, s))), EndOf(b, offset, s)))
  {
    hide Join, Lower;
    if ParseName(b, offset).Ok? {
      var s := SpellingOf(b, offset, 0, 0);
      WalkSpelled(b, offset, 0, 0, s);
      forall t | Spells(b, offset, t) ensures t == s {
        SpellingUnique(b, offset, t, s);
      }
    }
    forall s | Spells(b, offset, s) && Jumps(s) <= MAX_JUMPS && Octets(LabelsOf(b, offset, s)) <= MAX_OCTETS
      ensures ParseName(b, offset).Ok?
    {
      WalkSpelled(b, offset, 0, 0, s);
    }
  }

  lemma {:induction false} JoinLength(labels: seq<Bytes>)
    ensures |Join(labels)| == if labels == [] then 0 else Octets(labels) - 1
  {
    if |labels| > 1 { JoinLength(labels[1..]); }
  }

  lemma {:induction false} EndWithin(b: Bytes, cursor: nat, s: Spelling)
    requires Spells(b, cursor, s)
    ensures cursor < EndOf(b, cursor, s) <= |b|
    decreases s
  {
    if s.Label? { EndWithin(b, cursor + 1 + b[cursor], s.rest); }
  }

  /** A parsed name has at most 253 bytes and ends inside the message, past its start. */
  lemma NameBounds(b: Bytes, offset: nat)
    requires ParseName(b, offset).Ok?
    ensures |ParseName(b, offset).value.0| <= 253
    ensures offset < ParseName(b, offset).value.1 <= |b|
  {
    hide Join;
    var s := SpellingOf(b, offset, 0, 0);
    WalkSpelled(b, offset, 0, 0, s);
    JoinLength(LabelsOf(b, offset, s));
    EndWithin(b, offset, s);
  }

  // ---------------------------------------------------------------- messages

  datatype DnsMessage = DnsMessage(
    queryId: nat, response: bool, responseCode: nat, answerCount: nat, name: Option<Bytes>, recordType: Option<nat>
  )

  function ReadU16(b: Bytes, offset: nat): Result<nat, DnsError> {
    if offset + 2 <= |b| then
      var high: int, low: int := b[offset], b[offset + 1];
      Ok(high * 256 + low)
    else Err(TruncatedInteger)
  }

  /** The question, when the header announces one. */
  function Question(b: Bytes): Result<(Bytes, nat), DnsError> {
    var (name, after) :- ParseName(b, 12);
    var recordType :- ReadU16(b, after);
    var _ :- ReadU16(b, after + 2);
    Ok((name, recordType))
  }

  function DecodeDns(b: Bytes): Result<DnsMessage, DnsError> {
    if |b| < 12 then Err(TruncatedHeader)
    else
      var queryId :- ReadU16(b, 0);
      var flags :- ReadU16(b, 2);
      var questions :- ReadU16(b, 4);
      var answers :- ReadU16(b, 6);
      if questions == 0 then Ok(DnsMessage(queryId, flags >= 0x8000, flags % 16, answers, None, None))
      else
        var (name, recordType) :- Question(b);
        Ok(DnsMessage(queryId, flags >= 0x8000, flags % 16, answers, Some(name), Some(recordType)))
  }
}
