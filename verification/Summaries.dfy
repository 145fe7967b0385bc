/** `summarize_bson_inner` and `summarize_bson_prefix`: the metadata taken from a
    command or a reply, once from a whole document and once from as much of it as the
    sensor copied. The two loops of the source take the same step on an element; here
    that step is one function, `Absorb`. */
module Summaries {
  import opened Primitives
  import opened Bson
  import opened Elements
  import opened Deletes
  import opened Json
  import Scram

  datatype Summary = Summary(
    firstKey: Option<Bytes>,
    firstString: Option<Bytes>,
    database: Option<Bytes>,
    collection: Option<Bytes>,
    ok: Option<bool>,
    code: Option<int>,
    codeName: Option<Bytes>,
    mechanism: Option<Bytes>,
    principal: Option<Bytes>,
    speculative: bool,
    deleteScope: Option<DeleteScope>,
    deleteStatements: Option<nat>,
    affected: Option<int>,
    authDone: Option<bool>,
    query: Option<Json>
  )

  const EMPTY := Summary(None, None, None, None, None, None, None, None, None, false, None, None, None, None, None)

  datatype KeyKind =
    | DatabaseKey | CollectionKey | OkKey | CodeKey | CountKey | DoneKey | CodeNameKey
    | MechanismKey | UserKey | PayloadKey | SpeculativeKey | DeletesKey | OtherKey

  function KindOf(key: Bytes): KeyKind {
    if key == Ascii("$db") then DatabaseKey
    else if key == Ascii("collection") then CollectionKey
    else if key == Ascii("ok") then OkKey
    else if key == Ascii("code") then CodeKey
    else if key == Ascii("n") then CountKey
    else if key == Ascii("done") then DoneKey
    else if key == Ascii("codeName") then CodeNameKey
    else if key == Ascii("mechanism") then MechanismKey
    else if key == Ascii("user") then UserKey
    else if key == Ascii("payload") then PayloadKey
    else if key == Ascii("speculativeAuthenticate") then SpeculativeKey
    else if key == Ascii("deletes") then DeletesKey
    else OtherKey
  }

  predicate CapturesQuery(command: Bytes) {
    command == Ascii("find") || command == Ascii("aggregate") || command == Ascii("insert")
    || command == Ascii("update") || command == Ascii("delete")
  }

  // ---------------------------------------------------------------- one element

  /** The effect of one element on the summary. `next` is where the value ends, when
      `skip_value` found an end. */
  function Absorb(
    rt: Runtime, s: Summary, first: bool, key: Bytes, ty: byte, d: Bytes, start: nat, next: Option<nat>,
    allowSpeculative: bool
  ): Summary
    requires next.Some? ==> start <= next.value <= |d|
    decreases allowSpeculative, 0, 1
  {
    AbsorbKind(rt, if first then NameCommand(rt, s, key, ty, d, start) else s,
               KindOf(key), ty, d, start, next, allowSpeculative)
  }

  /** The first element names the command. */
  function NameCommand(rt: Runtime, s: Summary, key: Bytes, ty: byte, d: Bytes, start: nat): Summary {
    s.(firstKey := Some(key),
       firstString := if ty == TYPE_STRING then ReadString(rt, d, start).ToOption() else s.firstString)
  }

  function AbsorbKind(
    rt: Runtime, s: Summary, kind: KeyKind, ty: byte, d: Bytes, start: nat, next: Option<nat>,
    allowSpeculative: bool
  ): Summary
    requires next.Some? ==> start <= next.value <= |d|
    decreases allowSpeculative, 0, 0
  {
    match kind
    case DatabaseKey =>
      if ty == TYPE_STRING then s.(database := ReadString(rt, d, start).ToOption()) else s
    case CollectionKey =>
      if ty == TYPE_STRING then s.(collection := ReadString(rt, d, start).ToOption()) else s
    case OkKey => s.(ok := ReadBoolish(rt, d, start, ty))
    case CodeKey => s.(code := ReadI32ish(rt, d, start, ty))
    case CountKey => s.(affected := ReadU64ish(rt, d, start, ty))
    case DoneKey => s.(authDone := ReadBoolish(rt, d, start, ty))
    case CodeNameKey =>
      if ty == TYPE_STRING then s.(codeName := ReadString(rt, d, start).ToOption()) else s
    case MechanismKey =>
      if ty == TYPE_STRING then s.(mechanism := ReadString(rt, d, start).ToOption()) else s
    case UserKey =>
      if ty == TYPE_STRING then s.(principal := ReadString(rt, d, start).ToOption()) else s
    case PayloadKey =>
      if ty == TYPE_BINARY then s.(principal := OrElse(ScramUser(rt, d, start), s.principal)) else s
    case SpeculativeKey =>
      if allowSpeculative && ty == TYPE_DOCUMENT && next.Some? then
        AdoptNested(s, Summarize(rt, d[start..next.value], false))
      else s
    case DeletesKey =>
      if ty == TYPE_ARRAY && next.Some? then AdoptDeletes(s, Statements(rt, d[start..next.value])) else s
    case OtherKey => s
  }

  function ScramUser(rt: Runtime, d: Bytes, start: nat): Option<Bytes> {
    var payload :- ReadBinary(d, start).ToOption();
    Scram.ParsePrincipal(rt, payload)
  }

  function AdoptNested(s: Summary, nested: Decoded<Summary>): Summary {
    match nested
    case Err(_) => s
    case Ok(n) =>
      s.(speculative := n.firstKey.Some? && Lower(n.firstKey.value) == Ascii("saslstart"),
         mechanism := OrElse(n.mechanism, s.mechanism),
         principal := OrElse(n.principal, s.principal),
         authDone := OrElse(n.authDone, s.authDone))
  }

  function AdoptDeletes(s: Summary, scan: Scan): Summary {
    match scan
    case Err(_) => s
    case Ok((scope, statements)) => s.(deleteScope := scope, deleteStatements := Some(statements))
  }

  // ---------------------------------------------------------------- whole documents

  function Fold(rt: Runtime, s: Summary, first: bool, es: seq<Element>, allowSpeculative: bool): Summary
    decreases allowSpeculative, 1, |es|
  {
    if es == [] then s
    else Fold(rt, AbsorbElement(rt, s, first, es[0], allowSpeculative), false, es[1..], allowSpeculative)
  }

  function AbsorbElement(rt: Runtime, s: Summary, first: bool, e: Element, allowSpeculative: bool): Summary
    decreases allowSpeculative, 0, 2
  {
    Absorb(rt, s, first, e.key, e.ty, e.value, 0, Some(|e.value|), allowSpeculative)
  }

  function WithQuery(rt: Runtime, s: Summary, d: Bytes): Summary {
    if s.firstKey.Some? && CapturesQuery(Lower(s.firstKey.value))
    then s.(query := ContainerToJson(rt, d, false).ToOption())
    else s
  }

  /** A document is summarised by absorbing its elements in order. */
  function Summarize(rt: Runtime, d: Bytes, allowSpeculative: bool): Decoded<Summary>
    decreases allowSpeculative, 2, 0
  {
    var es :- Parse(rt, d);
    Ok(WithQuery(rt, Fold(rt, EMPTY, true, es, allowSpeculative), d))
  }

  /** The rest of the walk from `offset`, with `s` gathered so far. */
  ghost function FoldFrom(
    rt: Runtime, d: Bytes, offset: nat, s: Summary, first: bool, allowSpeculative: bool
  ): Decoded<Summary>
    requires |d| >= 1
  {
    var es :- ParseFrom(rt, d, offset);
    Ok(Fold(rt, s, first, es, allowSpeculative))
  }

  lemma KindLocal(
    rt: Runtime, s: Summary, kind: KeyKind, ty: byte, d: Bytes, start: nat, next: nat, allowSpeculative: bool
  )
    requires SkipValue(rt, d, start, ty) == Ok(next)
    ensures var v := d[start..next];
            AbsorbKind(rt, s, kind, ty, d, start, Some(next), allowSpeculative) ==
            AbsorbKind(rt, s, kind, ty, v, 0, Some(|v|), allowSpeculative)
  {
    hide SkipValue, ReadString, ReadBinary, ReadBoolish, ReadI32ish, ReadU64ish, Summarize, Statements;
    var v := d[start..next];
    SliceWindow(d, start, v);
    ScalarsWindow(rt, d, start, v, 0, |v|, ty);
    if ty == TYPE_STRING { StringWindow(rt, d, start, v, 0, |v|, ty); }
    if ty == TYPE_BINARY { BinaryWindow(rt, d, start, v, 0, |v|); }
    assert v[0..|v|] == v;
  }

  /** The step depends on the value's bytes only. */
  lemma AbsorbLocal(
    rt: Runtime, s: Summary, first: bool, key: Bytes, ty: byte, d: Bytes, start: nat, next: nat,
    allowSpeculative: bool
  )
    requires SkipValue(rt, d, start, ty) == Ok(next)
    ensures Absorb(rt, s, first, key, ty, d, start, Some(next), allowSpeculative) ==
            AbsorbElement(rt, s, first, Element(key, ty, d[start..next]), allowSpeculative)
  {
    hide SkipValue, ReadString, KindOf, AbsorbKind;
    var v := d[start..next];
    SliceWindow(d, start, v);
    if ty == TYPE_STRING { StringWindow(rt, d, start, v, 0, |v|, ty); }
    KindLocal(rt, if first then NameCommand(rt, s, key, ty, d, start) else s,
              KindOf(key), ty, d, start, next, allowSpeculative);
  }

  /** One round of the loop, then the rest. */
  ghost function FoldRound(
    rt: Runtime, d: Bytes, offset: nat, s: Summary, first: bool, allowSpeculative: bool
  ): Decoded<Summary>
    requires |d| >= 1 && offset < |d| - 1
  {
    var ty := d[offset];
    var (key, start) :- ReadCString(rt, d, offset + 1);
    var next :- SkipValue(rt, d, start, ty);
    if next > |d| - 1 then Err(InvalidBson)
    else
      var s' := Absorb(rt, s, first, key, ty, d, start, Some(next), allowSpeculative);
      FoldFrom(rt, d, next, s', false, allowSpeculative)
  }

  lemma FoldStep(rt: Runtime, d: Bytes, offset: nat, s: Summary, first: bool, allowSpeculative: bool)
    requires |d| >= 1 && offset < |d| - 1
    ensures FoldFrom(rt, d, offset, s, first, allowSpeculative) ==
            FoldRound(rt, d, offset, s, first, allowSpeculative)
  {
    hide SkipValue, ReadCString, Absorb, AbsorbElement;
    var read := ReadCString(rt, d, offset + 1);
    if read.Ok? {
      var skip := SkipValue(rt, d, read.value.1, d[offset]);
      if skip.Ok? && skip.value <= |d| - 1 {
        AbsorbLocal(rt, s, first, read.value.0, d[offset], d, read.value.1, skip.value, allowSpeculative);
        var rest := ParseFrom(rt, d, skip.value);
        if rest.Ok? {
          var e := Element(read.value.0, d[offset], d[read.value.1..skip.value]);
          assert ([e] + rest.value)[1..] == rest.value;
        }
      }
    }
  }

  method SummarizeBson(rt: Runtime, d: Bytes, allowSpeculative: bool) returns (r: Decoded<Summary>)
    ensures r == Summarize(rt, d, allowSpeculative)
  {
    hide SkipValue, ReadCString, Absorb, ParseFrom, WithQuery, FoldFrom;
    if !Framed(d) { return Err(InvalidBson); }
    var summary := EMPTY;
    var offset, ordinal := 4, 0;
    SummarizeIsFoldFrom(rt, d, allowSpeculative);
    while offset < |d| - 1
      invariant FoldFrom(rt, d, 4, EMPTY, true, allowSpeculative) ==
                FoldFrom(rt, d, offset, summary, ordinal == 0, allowSpeculative)
      invariant ordinal >= 0
      decreases |d| - offset
    {
      FoldStep(rt, d, offset, summary, ordinal == 0, allowSpeculative);
      var ty := d[offset];
      offset := offset + 1;
      var read := ReadCString(rt, d, offset);
      if read.Err? { return Err(read.error); }
      var (key, start) := read.value;
      var next := SkipValue(rt, d, start, ty);
      if next.Err? { return Err(next.error); }
      offset := next.value;
      if offset > |d| - 1 { return Err(InvalidBson); }
      summary := Absorb(rt, summary, ordinal == 0, key, ty, d, start, Some(offset), allowSpeculative);
      ordinal := ordinal + 1;
    }
    FoldEnd(rt, d, offset, summary, ordinal == 0, allowSpeculative);
    r := Ok(WithQuery(rt, summary, d));
  }

  lemma FoldEnd(rt: Runtime, d: Bytes, offset: nat, s: Summary, first: bool, allowSpeculative: bool)
    requires |d| >= 1 && offset >= |d| - 1
    ensures FoldFrom(rt, d, offset, s, first, allowSpeculative) == Ok(s)
  {
  }

  lemma SummarizeIsFoldFrom(rt: Runtime, d: Bytes, allowSpeculative: bool)
    requires Framed(d)
    ensures Summarize(rt, d, allowSpeculative) ==
            match FoldFrom(rt, d, 4, EMPTY, true, allowSpeculative) {
              case Err(e) => Err(e)
              case Ok(s) => Ok(WithQuery(rt, s, d))
            }
  {
    hide ParseFrom, Fold, WithQuery;
  }

  // ---------------------------------------------------------------- prefixes

  function PrefixFrom(rt: Runtime, p: Bytes, availableEnd: nat, offset: nat, s: Summary, first: bool): Summary
    requires availableEnd <= |p|
    decreases availableEnd - offset
  {
    if offset >= availableEnd then s
    else
      var ty := p[offset];
      match ReadCString(rt, p, offset + 1)
      case Err(_) => s
      case Ok((key, start)) =>
        var next := SkipValue(rt, p, start, ty).ToOption();
        var s := Absorb(rt, s, first, key, ty, p, start, next, true);
        if next.Some? && start < next.value <= availableEnd
        then PrefixFrom(rt, p, availableEnd, next.value, s, false)
        else s
  }

  function SummarizePrefix(rt: Runtime, p: Bytes): Decoded<Summary> {
    if |p| < 5 then Err(Truncated)
    else
      var declared := I32At(p, 0);
      if declared < 5 then Err(InvalidBson)
      else if |p| >= declared then Summarize(rt, p[..declared], true)
      else
        var s := PrefixFrom(rt, p, Min(|p|, declared - 1), 4, EMPTY, true);
        if s.firstKey.None? then Err(Truncated) else Ok(s)
  }

  method SummarizeBsonPrefix(rt: Runtime, p: Bytes) returns (r: Decoded<Summary>)
    ensures r == SummarizePrefix(rt, p)
  {
    hide SkipValue, ReadCString, Absorb, I32At;
    if |p| < 5 { return Err(Truncated); }
    var declared := I32At(p, 0);
    if declared < 5 { return Err(InvalidBson); }
    if |p| >= declared {
      r := SummarizeBson(rt, p[..declared], true);
      return;
    }
    var availableEnd := Min(|p|, declared - 1);
    var summary := EMPTY;
    var offset, ordinal := 4, 0;
    ghost var all := PrefixFrom(rt, p, availableEnd, 4, EMPTY, true);
    var done := false;
    while !done && offset < availableEnd
      invariant ordinal >= 0
      invariant all == if done then summary else PrefixFrom(rt, p, availableEnd, offset, summary, ordinal == 0)
      decreases !done, availableEnd - offset
    {
      var ty := p[offset];
      var read := ReadCString(rt, p, offset + 1);
      if read.Err? { done := true; break; }
      var (key, start) := read.value;
      offset := start;
      var next := SkipValue(rt, p, start, ty);
      summary := Absorb(rt, summary, ordinal == 0, key, ty, p, start, next.ToOption(), true);
      ordinal := ordinal + 1;
      if next.Ok? && start < next.value <= availableEnd {
        offset := next.value;
      } else {
        done := true;
        break;
      }
    }
    r := if summary.firstKey.None? then Err(Truncated) else Ok(summary);
  }
}
