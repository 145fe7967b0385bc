/** DNS messages as they are printed: which bits of the header are which, and the question
    (section 4.1 of RFC 1035). */
module DnsPackets {
  import opened Primitives
  import opened Dns

  function U16(n: nat): (b: Bytes)
    requires n < 0x1_0000
    ensures |b| == 2
  {
    [n / 0x100, n % 0x100]
  }

  /** Identifier; response bit, eleven bits of no interest here, response code; numbers of
      questions and answers; two more counts; then what follows the header. */
  function Packet(
    id: nat, response: bool, between: nat, code: nat, questions: nat, answers: nat, counts: Bytes, rest: Bytes
  ): (b: Bytes)
    requires id < 0x1_0000 && between < 2048 && code < 16 && questions < 0x1_0000 && answers < 0x1_0000 && |counts| == 4
    ensures |b| == 12 + |rest|
  {
    U16(id) + U16((if response then 32768 else 0) + 16 * between + code) + U16(questions) + U16(answers) + counts + rest
  }

  function NameBytes(labels: seq<Bytes>): Bytes
    requires forall l | l in labels :: |l| < 256
  {
    if labels == [] then [0] else [|labels[0]|] + labels[0] + NameBytes(labels[1..])
  }

  /** Labels a name can be made of. */
  ghost predicate Nameable(labels: seq<Bytes>) {
    forall l | l in labels :: 1 <= |l| <= 63 && forall c | c in l :: NameChar(c)
  }

  ghost function SpellingFor(labels: seq<Bytes>): Spelling {
    if labels == [] then Root else Label(SpellingFor(labels[1..]))
  }

  lemma SpellRoot(b: Bytes, n: nat)
    requires n < |b| && b[n] == 0
    ensures Spells(b, n, Root) && LabelsOf(b, n, Root) == [] && EndOf(b, n, Root) == n + 1 && Jumps(Root) == 0
  {
  }

  lemma SpellsOne(b: Bytes, n: nat, l: Bytes, s: Spelling)
    requires n + 1 + |l| <= |b| && 1 <= |l| <= 63 && b[n] == |l| && b[n + 1..n + 1 + |l|] == l
    requires (forall c | c in l :: NameChar(c)) && Spells(b, n + 1 + |l|, s)
    ensures Spells(b, n, Label(s)) && Jumps(Label(s)) == Jumps(s)
  {
    hide NameChar, LabelsOf, EndOf;
  }

  /** One more label in front of a spelled name. */
  lemma SpellLabel(b: Bytes, n: nat, l: Bytes, s: Spelling)
    requires n + 1 + |l| <= |b| && 1 <= |l| <= 63 && b[n] == |l| && b[n + 1..n + 1 + |l|] == l
    requires (forall c | c in l :: NameChar(c)) && Spells(b, n + 1 + |l|, s)
    ensures Spells(b, n, Label(s)) && Jumps(Label(s)) == Jumps(s)
    ensures LabelsOf(b, n, Label(s)) == [l] + LabelsOf(b, n + 1 + |l|, s)
    ensures EndOf(b, n, Label(s)) == EndOf(b, n + 1 + |l|, s)
  {
    hide NameChar, Spells, Jumps;
    SpellsOne(b, n, l, s);
  }

  /** The bytes from `n` to `end` spell these labels, without a pointer. */
  ghost predicate SpelledOut(b: Bytes, n: nat, labels: seq<Bytes>, end: nat) {
    var s := SpellingFor(labels);
    Spells(b, n, s) && Jumps(s) == 0 && LabelsOf(b, n, s) == labels && EndOf(b, n, s) == end
  }

  lemma SpellMore(b: Bytes, n: nat, labels: seq<Bytes>, end: nat)
    requires labels != [] && 1 <= |labels[0]| <= 63 && forall c | c in labels[0] :: NameChar(c)
    requires n + 1 + |labels[0]| <= |b| && b[n] == |labels[0]| && b[n + 1..n + 1 + |labels[0]|] == labels[0]
    requires SpelledOut(b, n + 1 + |labels[0]|, labels[1..], end)
    ensures SpelledOut(b, n, labels, end)
  {
    hide Spells, LabelsOf, EndOf, NameChar, Jumps;
    SpellLabel(b, n, labels[0], SpellingFor(labels[1..]));
    assert [labels[0]] + labels[1..] == labels;
  }

  lemma {:induction false} PrintedSpells(pre: Bytes, labels: seq<Bytes>, post: Bytes, b: Bytes)
    requires Nameable(labels) && b == pre + NameBytes(labels) + post
    ensures SpelledOut(b, |pre|, labels, |pre| + |NameBytes(labels)|)
    decreases |labels|
  {
    hide NameBytes, NameChar, SpelledOut;
    if labels == [] {
      NameEnds();
      assert b[|pre|] == 0;
      NothingSpelled(b, |pre|);
    } else {
      var l, rest := labels[0], NameBytes(labels[1..]);
      NameBegins(labels);
      LabelPlaced(pre, l, rest, post);
      PrintedSpells(pre + [|l|] + l, labels[1..], post, b);
      SpellMore(b, |pre|, labels, |pre| + |NameBytes(labels)|);
    }
  }

  lemma NothingSpelled(b: Bytes, n: nat)
    requires n < |b| && b[n] == 0
    ensures SpelledOut(b, n, [], n + 1)
  {
    SpellRoot(b, n);
  }

  lemma NameEnds()
    ensures NameBytes([]) == [0]
  {
  }

  lemma NameBegins(labels: seq<Bytes>)
    requires labels != [] && forall l | l in labels :: |l| < 256
    ensures NameBytes(labels) == [|labels[0]|] + labels[0] + NameBytes(labels[1..])
  {
  }

  lemma LabelPlaced(pre: Bytes, l: Bytes, rest: Bytes, post: Bytes)
    requires |l| < 256
    ensures var b, n := pre + ([|l|] + l + rest) + post, |pre|;
            && b == (pre + [|l|] + l) + rest + post && n + 1 + |l| <= |b|
            && b[n] == |l| && b[n + 1..n + 1 + |l|] == l
  {
  }

  /** A printed name is read back in lower case, up to its end. */
  lemma PrintedName(pre: Bytes, labels: seq<Bytes>, post: Bytes)
    requires Nameable(labels) && Octets(labels) <= 254
    ensures ParseName(pre + NameBytes(labels) + post, |pre|) == Ok((Lower(Join(labels)), |pre| + |NameBytes(labels)|))
  {
    hide Lower, Join, NameBytes, NameChar, Spells, LabelsOf, EndOf, Jumps, Walk;
    var b := pre + NameBytes(labels) + post;
    PrintedSpells(pre, labels, post, b);
    WalkSpelled(b, |pre|, 0, 0, SpellingFor(labels));
  }

  lemma HeaderReads(
    id: nat, response: bool, between: nat, code: nat, questions: nat, answers: nat, counts: Bytes, rest: Bytes
  )
    requires id < 0x1_0000 && between < 2048 && code < 16 && questions < 0x1_0000 && answers < 0x1_0000 && |counts| == 4
    ensures var b := Packet(id, response, between, code, questions, answers, counts, rest);
            var flags := (if response then 32768 else 0) + 16 * between + code;
            && ReadU16(b, 0) == Ok(id) && ReadU16(b, 2) == Ok(flags) && ReadU16(b, 4) == Ok(questions)
            && ReadU16(b, 6) == Ok(answers) && (flags >= 0x8000 <==> response) && flags % 16 == code
            && b[12..] == rest
  {
  }

  /** A message without questions: identifier, kind, code and number of answers. */
  lemma BareReads(id: nat, response: bool, between: nat, code: nat, answers: nat, counts: Bytes, rest: Bytes)
    requires id < 0x1_0000 && between < 2048 && code < 16 && answers < 0x1_0000 && |counts| == 4
    ensures DecodeDns(Packet(id, response, between, code, 0, answers, counts, rest)) ==
            Ok(DnsMessage(id, response, code, answers, None, None))
  {
    hide Packet, ReadU16;
    HeaderReads(id, response, between, code, 0, answers, counts, rest);
  }

  /** A message with a question: the same, with the name asked for, in lower case, and the
      type of the record. */
  lemma QuestionReads(
    id: nat, response: bool, between: nat, code: nat, questions: nat, answers: nat, counts: Bytes,
    labels: seq<Bytes>, recordType: nat, recordClass: nat, more: Bytes
  )
    requires id < 0x1_0000 && between < 2048 && code < 16 && 0 < questions < 0x1_0000 && answers < 0x1_0000 && |counts| == 4
    requires Nameable(labels) && Octets(labels) <= 254 && recordType < 0x1_0000 && recordClass < 0x1_0000
    ensures var question := NameBytes(labels) + U16(recordType) + U16(recordClass) + more;
            DecodeDns(Packet(id, response, between, code, questions, answers, counts, question)) ==
            Ok(DnsMessage(id, response, code, answers, Some(Lower(Join(labels))), Some(recordType)))
  {
    hide Packet, Lower, Join, ParseName, NameBytes;
    var name := NameBytes(labels);
    var question := name + U16(recordType) + U16(recordClass) + more;
    HeaderReads(id, response, between, code, questions, answers, counts, question);
    var b := Packet(id, response, between, code, questions, answers, counts, question);
    var pre, post := b[..12], U16(recordType) + U16(recordClass) + more;
    assert b == pre + name + post;
    PrintedName(pre, labels, post);
    TypeReads(pre + name, recordType, recordClass, more);
    assert b == (pre + name) + U16(recordType) + U16(recordClass) + more;
  }

  lemma TypeReads(pre: Bytes, recordType: nat, recordClass: nat, more: Bytes)
    requires recordType < 0x1_0000 && recordClass < 0x1_0000
    ensures var b := pre + U16(recordType) + U16(recordClass) + more;
            ReadU16(b, |pre|) == Ok(recordType) && ReadU16(b, |pre| + 2) == Ok(recordClass)
  {
  }
}
