/**
 Personal-data export (scripts/personal_data_export.py): field filtering, section
 collection, packaging and the spool that releases a package once. Canonical JSON (its
 size, its order and its digest) is a parameter; other writers may replace the spool file
 at any time.
 */
module Export {
  import opened Wrappers

  type Text = string

  // ----- records and filtering -----

  /** Object keys; only text is acceptable. */
  datatype Key = Named(name: Text) | NotText

  datatype Json = Scalar(value: int) | List(items: Items) | Object(fields: Fields)
  datatype Items = NoItems | Item(head: Json, tail: Items)
  datatype Fields = NoFields | Field(key: Key, value: Json, rest: Fields)

  const FORBIDDEN: set<Text> := {
    "password", "password_hash", "acct_password", "confirmation_code", "delivery_token",
    "delivery_token_hash", "private_key", "secret", "command_payload", "result_payload",
    "keys_hash", "command_hash", "raw_security_events"}

  /** `str.casefold`, of which nothing is used but that it is a function. */
  type Fold = Text -> Text

  /** `_contains_forbidden_field`; None where it raises on a key that is not text. */
  function ContainsForbidden(fold: Fold, value: Json): Option<bool> {
    match value
    case Scalar(_) => Some(false)
    case List(items) => AnyForbidden(fold, items)
    case Object(fields) => FieldsForbidden(fold, fields)
  }

  function AnyForbidden(fold: Fold, items: Items): Option<bool> {
    match items
    case NoItems => Some(false)
    case Item(head, tail) =>
      (match ContainsForbidden(fold, head)
       case Some(false) => AnyForbidden(fold, tail)
       case other => other)
  }

  function FieldsForbidden(fold: Fold, fields: Fields): Option<bool> {
    match fields
    case NoFields => Some(false)
    case Field(key, value, rest) =>
      if key.NotText? then None
      else if fold(key.name) in FORBIDDEN then Some(true)
      else
        match ContainsForbidden(fold, value)
        case Some(false) => FieldsForbidden(fold, rest)
        case other => other
  }

  /** Every key at every depth is text and, whatever its case, not forbidden. */
  predicate Clean(fold: Fold, value: Json) {
    match value
    case Scalar(_) => true
    case List(items) => CleanItems(fold, items)
    case Object(fields) => CleanFields(fold, fields)
  }

  predicate CleanItems(fold: Fold, items: Items) {
    items.Item? ==> Clean(fold, items.head) && CleanItems(fold, items.tail)
  }

  predicate CleanFields(fold: Fold, fields: Fields) {
    fields.Field? ==>
      && fields.key.Named? && fold(fields.key.name) !in FORBIDDEN && Clean(fold, fields.value)
         && CleanFields(fold, fields.rest)
  }

  /** The search finds nothing exactly in clean values, at any depth. */
  lemma {:induction false} SearchIsExact(fold: Fold, value: Json)
    ensures ContainsForbidden(fold, value) == Some(false) <==> Clean(fold, value)
  {
    match value
    case Scalar(_) =>
    case List(items) => SearchItemsIsExact(fold, items);
    case Object(fields) => SearchFieldsIsExact(fold, fields);
  }

  lemma {:induction false} SearchItemsIsExact(fold: Fold, items: Items)
    ensures AnyForbidden(fold, items) == Some(false) <==> CleanItems(fold, items)
  {
    if items.Item? {
      SearchIsExact(fold, items.head);
      SearchItemsIsExact(fold, items.tail);
    }
  }

  lemma {:induction false} SearchFieldsIsExact(fold: Fold, fields: Fields)
    ensures FieldsForbidden(fold, fields) == Some(false) <==> CleanFields(fold, fields)
  {
    if fields.Field? {
      SearchIsExact(fold, fields.value);
      SearchFieldsIsExact(fold, fields.rest);
    }
  }

  datatype Disposition = Include | SharedRedacted | Exclude | PendingRule

  datatype Rule = Rule(disposition: Disposition, excluded: set<Text>, shared: set<Text>)

  /** A field with this key is kept by the rule. */
  predicate Kept(rule: Rule, key: Key) {
    match key
    case NotText => rule.disposition.Include?
    case Named(name) =>
      && name !in rule.excluded && name !in FORBIDDEN
      && (rule.disposition.SharedRedacted? ==> name in rule.shared)
  }

  function Select(rule: Rule, record: Fields): Fields {
    match record
    case NoFields => NoFields
    case Field(key, value, rest) =>
      if Kept(rule, key) then Field(key, value, Select(rule, rest)) else Select(rule, rest)
  }

  /** `filter_record`; None for its exceptions. */
  function FilterRecord(fold: Fold, rule: Rule, record: Fields): Option<Fields> {
    if rule.disposition.Exclude? || rule.disposition.PendingRule? then None
    else if FieldsForbidden(fold, Select(rule, record)) == Some(false) then Some(Select(rule, record))
    else None
  }

  predicate HasField(fields: Fields, key: Key, value: Json) {
    fields.Field? && ((fields.key == key && fields.value == value) || HasField(fields.rest, key, value))
  }

  lemma {:induction false} SelectKeepsExactly(rule: Rule, record: Fields, key: Key, value: Json)
    ensures HasField(Select(rule, record), key, value) <==> HasField(record, key, value) && Kept(rule, key)
  {
    if record.Field? {
      SelectKeepsExactly(rule, record.rest, key, value);
    }
  }

  /**
   A filtered record is clean at every depth and has exactly the fields of the original
   that the rule keeps, with their values; and nothing clean is refused.
   */
  lemma {:induction false} FilterIsExact(fold: Fold, rule: Rule, record: Fields, key: Key, value: Json)
    ensures FilterRecord(fold, rule, record).Some? <==>
            rule.disposition in {Include, SharedRedacted} && CleanFields(fold, Select(rule, record))
    ensures FilterRecord(fold, rule, record).Some? ==>
              && CleanFields(fold, FilterRecord(fold, rule, record).value)
              && (HasField(FilterRecord(fold, rule, record).value, key, value) <==>
                  HasField(record, key, value) && Kept(rule, key))
  {
    SearchFieldsIsExact(fold, Select(rule, record));
    SelectKeepsExactly(rule, record, key, value);
  }

  // ----- requests -----

  datatype Status = Pending | Collecting | Packaged | Released | Cancelled | Failed | Expired

  const TERMINAL: set<Status> := {Released, Cancelled, Failed, Expired}

  const MAX_SECTION_ROWS := 256
  const MAX_SECTION_BYTES := 1024 * 1024
  const MAX_BUNDLE_ROWS := 10000
  const MAX_BUNDLE_BYTES := 16 * 1024 * 1024

  /**
   What is fixed when a request is created: its policy snapshot, its stores in sorted
   order, its identity and dates.
   */
  datatype Header = Header(
    id: Text, manifest: Text, snapshotId: Text, createdAt: int, expiresAt: int,
    stores: seq<Text>, rules: map<Text, Rule>)

  ghost predicate WellFormed(h: Header) {
    forall store | store in h.stores :: store in h.rules
  }

  /** What a bundle says, before its checksum. */
  datatype Content = Content(header: Header, sections: map<Text, seq<Fields>>)

  datatype Package = Package(content: Content, checksum: int)

  /** Canonical JSON as far as it matters here. */
  datatype Codec = Codec(fold: Fold, size: Fields -> nat, arrange: seq<Fields> -> seq<Fields>,
                         bundleSize: Content -> nat, digest: Content -> int)

  datatype State = State(
    status: Status, sections: map<Text, seq<Fields>>, bytes: map<Text, nat>, completed: set<Text>,
    checksum: Option<int>, published: bool, spool: Option<Package>)

  function Initial(h: Header): State {
    State(Pending, map store | store in h.stores :: [], map store | store in h.stores :: 0, {}, None, false, None)
  }

  function Rows(h: Header, sections: map<Text, seq<Fields>>, n: nat): nat
    requires n <= |h.stores|
  {
    if n == 0 then 0
    else Rows(h, sections, n - 1) + if h.stores[n - 1] in sections then |sections[h.stores[n - 1]]| else 0
  }

  function Bytes(h: Header, bytes: map<Text, nat>, n: nat): nat
    requires n <= |h.stores|
  {
    if n == 0 then 0 else Bytes(h, bytes, n - 1) + if h.stores[n - 1] in bytes then bytes[h.stores[n - 1]] else 0
  }

  function FilterAll(fold: Fold, rule: Rule, records: seq<Fields>): Option<seq<Fields>> {
    if records == [] then Some([])
    else
      match (FilterAll(fold, rule, records[..|records| - 1]), FilterRecord(fold, rule, records[|records| - 1]))
      case (Some(front), Some(last)) => Some(front + [last])
      case _ => None
  }

  function SizeOf(codec: Codec, records: seq<Fields>): nat {
    if records == [] then 0 else SizeOf(codec, records[..|records| - 1]) + codec.size(records[|records| - 1])
  }

  datatype Batch = Batch(manifest: Text, store: Text, records: seq<Fields>, snapshotId: Text, final: bool)

  /** The section after a batch was accepted; the last batch of a section orders it. */
  function Extended(codec: Codec, section: seq<Fields>, more: seq<Fields>, final: bool): seq<Fields> {
    if final then codec.arrange(section + more) else section + more
  }

  /** `add_section_batch` */
  function AddStep(codec: Codec, h: Header, s: State, b: Batch): (State, bool) {
    if s.status in TERMINAL then (s, false)
    else if b.manifest != h.manifest || b.snapshotId != h.snapshotId || b.store !in s.sections then
      (s.(status := Failed), false)
    else if b.store !in h.rules then (s, false)
    else
      var rule := h.rules[b.store];
      if rule.disposition.Exclude? || rule.disposition.PendingRule? then
        if b.records != [] then (s.(status := Failed), false)
        else (s.(completed := s.completed + {b.store}, status := Collecting), true)
      else if b.store in s.completed || |b.records| > MAX_SECTION_ROWS then (s, false)
      else
        match FilterAll(codec.fold, rule, b.records)
        case None => (s, false)
        case Some(filtered) => AcceptBatch(codec, h, s, b, filtered)
  }

  function AcceptBatch(codec: Codec, h: Header, s: State, b: Batch, filtered: seq<Fields>): (State, bool)
    requires b.store in s.sections
  {
    var encoded := SizeOf(codec, filtered);
    var held := if b.store in s.bytes then s.bytes[b.store] else 0;
    if encoded > MAX_SECTION_BYTES || held + encoded > MAX_BUNDLE_BYTES then (s, false)
    else
      var grown := s.(sections := s.sections[b.store := s.sections[b.store] + filtered],
                      bytes := s.bytes[b.store := held + encoded]);
      if Rows(h, grown.sections, |h.stores|) > MAX_BUNDLE_ROWS
         || Bytes(h, grown.bytes, |h.stores|) > MAX_BUNDLE_BYTES then
        (grown.(status := Failed), false)
      else if b.final then
        (grown.(status := Collecting, completed := s.completed + {b.store},
                sections := s.sections[b.store := Extended(codec, s.sections[b.store], filtered, true)]), true)
      else (grown.(status := Collecting), true)
  }

  function ContentOf(h: Header, s: State): Content {
    Content(h, s.sections)
  }

  /** `build_bundle` */
  function BuildStep(codec: Codec, h: Header, s: State): (State, Option<Package>) {
    if !s.status.Collecting? || s.completed != s.sections.Keys || !(s.sections.Keys <= h.rules.Keys) then (s, None)
    else
      var content := ContentOf(h, s);
      if codec.bundleSize(content) > MAX_BUNDLE_BYTES then (s.(status := Failed), None)
      else
        (s.(checksum := Some(codec.digest(content)), status := Packaged), Some(Package(content, codec.digest(content))))
  }

  /** `verify_bundle`: the checksum matches and no record contains a forbidden field. */
  predicate Verifies(codec: Codec, package: Package) {
    && package.checksum == codec.digest(package.content) && CleanContent(codec.fold, package.content.sections)
  }

  predicate CleanContent(fold: Fold, sections: map<Text, seq<Fields>>) {
    forall store, i | store in sections && 0 <= i < |sections[store]| :: CleanFields(fold, sections[store][i])
  }

  predicate Accepted(codec: Codec, h: Header, s: State, package: Package) {
    Verifies(codec, package) && package.content.header.id == h.id && Some(package.checksum) == s.checksum
  }

  /** `publish` */
  function PublishStep(codec: Codec, h: Header, s: State, package: Package, now: int): (State, bool) {
    if !s.status.Packaged? then (s, false)
    else if now >= h.expiresAt then (s.(status := Expired), false)
    else if !Accepted(codec, h, s, package) then (s, false)
    else if s.spool.Some? && s.spool.value != package then (s, false)
    else (s.(published := true, spool := Some(package)), true)
  }

  /** `expire` and `cancel` drop the package and the records. */
  function Dropped(s: State, status: Status): State {
    s.(published := false, spool := if s.published then None else s.spool, sections := map[], status := status)
  }

  function ExpireStep(h: Header, s: State, now: int): (State, bool) {
    if now < h.expiresAt then (s, false) else (Dropped(s, Expired), true)
  }

  /** `retrieve_once` */
  function RetrieveStep(codec: Codec, h: Header, s: State, now: int): (State, Option<Package>) {
    if now >= h.expiresAt then (Dropped(s, Expired), None)
    else if !s.status.Packaged? || !s.published || s.spool.None? then (s, None)
    else if !Accepted(codec, h, s, s.spool.value) then (s, None)
    else (s.(published := false, spool := None, status := Released), s.spool)
  }

  datatype Call =
    | Add(batch: Batch)
    | Build
    | Publish(package: Package, now: int)
    | Retrieve(now: int)
    | Cancel
    | Expire(now: int)
    | Tamper(file: Option<Package>)

  ghost function Step(codec: Codec, h: Header, s: State, call: Call): State {
    match call
    case Add(batch) => AddStep(codec, h, s, batch).0
    case Build => BuildStep(codec, h, s).0
    case Publish(package, now) => PublishStep(codec, h, s, package, now).0
    case Retrieve(now) => RetrieveStep(codec, h, s, now).0
    case Cancel => Dropped(s, Cancelled)
    case Expire(now) => ExpireStep(h, s, now).0
    case Tamper(file) => s.(spool := file)
  }

  ghost function Run(codec: Codec, h: Header, s: State, calls: seq<Call>): State
    decreases |calls|
  {
    if calls == [] then s else Run(codec, h, Step(codec, h, s, calls[0]), calls[1..])
  }

  /** The packages handed out over a run. */
  ghost function Releases(codec: Codec, h: Header, s: State, calls: seq<Call>): seq<Package>
    decreases |calls|
  {
    if calls == [] then []
    else
      (if calls[0].Retrieve? && RetrieveStep(codec, h, s, calls[0].now).1.Some? then
        [RetrieveStep(codec, h, s, calls[0].now).1.value]
       else [])
      + Releases(codec, h, Step(codec, h, s, calls[0]), calls[1..])
  }

  // ----- release -----

  lemma {:induction false} TerminalStep(codec: Codec, h: Header, s: State, call: Call)
    requires s.status in TERMINAL
    ensures Step(codec, h, s, call).status in TERMINAL
    ensures call.Retrieve? ==> RetrieveStep(codec, h, s, call.now).1.None?
  {
  }

  /** After a release, a cancellation, an expiry or a failure nothing is ever released. */
  lemma {:induction false} NothingAfterTheEnd(codec: Codec, h: Header, s: State, calls: seq<Call>)
    requires s.status in TERMINAL
    ensures Releases(codec, h, s, calls) == [] && Run(codec, h, s, calls).status in TERMINAL
    decreases |calls|
  {
    hide Step, RetrieveStep;
    if calls != [] {
      TerminalStep(codec, h, s, calls[0]);
      NothingAfterTheEnd(codec, h, Step(codec, h, s, calls[0]), calls[1..]);
    }
  }

  /** A package is released at most once, whatever is called and however the spool is tampered with. */
  lemma {:induction false} ReleasedAtMostOnce(codec: Codec, h: Header, s: State, calls: seq<Call>)
    ensures |Releases(codec, h, s, calls)| <= 1
    decreases |calls|
  {
    if calls != [] {
      var next := Step(codec, h, s, calls[0]);
      if calls[0].Retrieve? && RetrieveStep(codec, h, s, calls[0].now).1.Some? {
        assert next.status.Released?;
        NothingAfterTheEnd(codec, h, next, calls[1..]);
      } else {
        hide Step, RetrieveStep;
        ReleasedAtMostOnce(codec, h, next, calls[1..]);
      }
    }
  }

  /** No cancelled or expired request releases, though both calls are accepted in every status. */
  lemma {:induction false} EndedMeansNoRelease(codec: Codec, h: Header, s: State, now: int, calls: seq<Call>)
    ensures Releases(codec, h, Step(codec, h, s, Call.Cancel), calls) == []
    ensures now >= h.expiresAt ==> Releases(codec, h, Step(codec, h, s, Call.Expire(now)), calls) == []
  {
    NothingAfterTheEnd(codec, h, Step(codec, h, s, Call.Cancel), calls);
    if now >= h.expiresAt {
      NothingAfterTheEnd(codec, h, Step(codec, h, s, Call.Expire(now)), calls);
    }
  }

  // ----- what is collected -----

  /** The codec's ordering only reorders. */
  ghost predicate Faithful(codec: Codec) {
    forall records :: multiset(codec.arrange(records)) == multiset(records)
  }

  predicate Silent(rule: Rule) {
    rule.disposition.Exclude? || rule.disposition.PendingRule?
  }

  ghost predicate Inv(codec: Codec, h: Header, s: State) {
    && s.sections.Keys <= h.rules.Keys && CleanContent(codec.fold, s.sections)
       && s.completed <= (set store | store in h.stores)
    && (s.status !in TERMINAL ==> s.sections.Keys == (set store | store in h.stores))
    && (forall store | store in s.sections && Silent(h.rules[store]) :: s.sections[store] == [])
    && (s.status !in TERMINAL ==> Rows(h, s.sections, |h.stores|) <= MAX_BUNDLE_ROWS)
    && (s.status in {Packaged, Collecting} && s.checksum.Some? ==> Sealed(codec, h, s))
    && (s.status.Packaged? ==> s.checksum.Some?) && (s.status.Pending? ==> s.checksum.None?)
  }

  /** All sections are complete and the checksum is that of their content. */
  ghost predicate Sealed(codec: Codec, h: Header, s: State) {
    && s.completed == s.sections.Keys && s.checksum == Some(codec.digest(ContentOf(h, s)))
    && codec.bundleSize(ContentOf(h, s)) <= MAX_BUNDLE_BYTES
  }

  lemma {:induction false} FilteredIsClean(fold: Fold, rule: Rule, records: seq<Fields>)
    requires FilterAll(fold, rule, records).Some?
    ensures |FilterAll(fold, rule, records).value| == |records|
    ensures forall i | 0 <= i < |records| ::
              FilterRecord(fold, rule, records[i]) == Some(FilterAll(fold, rule, records).value[i])
                  && CleanFields(fold, FilterAll(fold, rule, records).value[i])
  {
    if records != [] {
      FilteredIsClean(fold, rule, records[..|records| - 1]);
      SearchFieldsIsExact(fold, Select(rule, records[|records| - 1]));
    }
  }

  lemma {:induction false} ArrangedIsClean(codec: Codec, section: seq<Fields>, more: seq<Fields>)
    requires Faithful(codec)
    requires (forall i | 0 <= i < |section| :: CleanFields(codec.fold, section[i]))
             && forall i | 0 <= i < |more| :: CleanFields(codec.fold, more[i])
    ensures |Extended(codec, section, more, true)| == |section| + |more|
    ensures forall i | 0 <= i < |Extended(codec, section, more, true)| ::
              CleanFields(codec.fold, Extended(codec, section, more, true)[i])
  {
    var all, arranged := section + more, codec.arrange(section + more);
    assert |arranged| == |multiset(arranged)| == |multiset(all)| == |all|;
    forall i | 0 <= i < |arranged|
      ensures CleanFields(codec.fold, arranged[i])
    {
      assert arranged[i] in multiset(arranged);
      assert arranged[i] in all;
    }
  }

  lemma {:induction false} SameRows(h: Header, a: map<Text, seq<Fields>>, b: map<Text, seq<Fields>>, n: nat)
    requires n <= |h.stores| && a.Keys == b.Keys && forall store | store in a :: |a[store]| == |b[store]|
    ensures Rows(h, a, n) == Rows(h, b, n)
  {
    if n > 0 {
      SameRows(h, a, b, n - 1);
    }
  }

  lemma {:induction false} AcceptKeepsInv(codec: Codec, h: Header, s: State, b: Batch, filtered: seq<Fields>)
    requires WellFormed(h) && Faithful(codec) && Inv(codec, h, s) && s.status !in TERMINAL
    requires b.store in s.sections && !Silent(h.rules[b.store]) && b.store !in s.completed
    requires forall i | 0 <= i < |filtered| :: CleanFields(codec.fold, filtered[i])
    ensures Inv(codec, h, AcceptBatch(codec, h, s, b, filtered).0)
  {
    hide CleanFields, SizeOf, Rows, Bytes;
    var section := s.sections[b.store];
    ArrangedIsClean(codec, section, filtered);
    StaysClean(codec.fold, s.sections, b.store, section + filtered);
    StaysClean(codec.fold, s.sections, b.store, Extended(codec, section, filtered, true));
    SameRows(h, s.sections[b.store := section + filtered],
             s.sections[b.store := Extended(codec, section, filtered, true)], |h.stores|);
    assert s.completed != s.sections.Keys && s.checksum.None?;
    hide CleanContent, Extended, Sealed, Faithful, WellFormed;
  }

  lemma {:induction false} StaysClean(fold: Fold, sections: map<Text, seq<Fields>>, store: Text, section: seq<Fields>)
    requires CleanContent(fold, sections) && forall i | 0 <= i < |section| :: CleanFields(fold, section[i])
    ensures CleanContent(fold, sections[store := section])
  {
    hide CleanFields;
  }

  lemma {:induction false} StepKeepsInv(codec: Codec, h: Header, s: State, call: Call)
    requires WellFormed(h) && Faithful(codec) && Inv(codec, h, s)
    ensures Inv(codec, h, Step(codec, h, s, call))
  {
    if call.Add? {
      AddKeepsInv(codec, h, s, call.batch);
    }
    BuildKeepsInv(codec, h, s);
    hide AddStep, BuildStep, Rows, CleanContent, Accepted, WellFormed, Faithful;
  }

  lemma {:induction false} BuildKeepsInv(codec: Codec, h: Header, s: State)
    requires Inv(codec, h, s)
    ensures Inv(codec, h, BuildStep(codec, h, s).0)
  {
    hide Rows, CleanContent;
  }

  lemma {:induction false} AddKeepsInv(codec: Codec, h: Header, s: State, b: Batch)
    requires WellFormed(h) && Faithful(codec) && Inv(codec, h, s)
    ensures Inv(codec, h, AddStep(codec, h, s, b).0)
  {
    hide AcceptBatch, FilterAll, Rows, CleanContent, SizeOf, Bytes;
    if s.status !in TERMINAL && b.store in s.sections && !Silent(h.rules[b.store]) && b.store !in s.completed
       && FilterAll(codec.fold, h.rules[b.store], b.records).Some? {
      FilteredIsClean(codec.fold, h.rules[b.store], b.records);
      AcceptKeepsInv(codec, h, s, b, FilterAll(codec.fold, h.rules[b.store], b.records).value);
    }
  }

  lemma {:induction false} RunKeepsInv(codec: Codec, h: Header, s: State, calls: seq<Call>)
    requires WellFormed(h) && Faithful(codec) && Inv(codec, h, s)
    ensures Inv(codec, h, Run(codec, h, s, calls))
    decreases |calls|
  {
    hide Step, Inv;
    if calls != [] {
      StepKeepsInv(codec, h, s, calls[0]);
      RunKeepsInv(codec, h, Step(codec, h, s, calls[0]), calls[1..]);
    }
  }

  lemma {:induction false} NoRows(h: Header, n: nat)
    requires n <= |h.stores|
    ensures Rows(h, Initial(h).sections, n) == 0
  {
    if n > 0 {
      NoRows(h, n - 1);
    }
  }

  lemma {:induction false} InitialInv(codec: Codec, h: Header)
    requires WellFormed(h)
    ensures Inv(codec, h, Initial(h))
  {
    NoRows(h, |h.stores|);
  }

  /** A completed section never changes; cancelling or expiring drops it whole. */
  lemma {:induction false} CompleteSectionStep(codec: Codec, h: Header, s: State, call: Call, store: Text)
    ensures store !in s.sections ==> store !in Step(codec, h, s, call).sections
    ensures store in s.completed ==> store in Step(codec, h, s, call).completed
    ensures Inv(codec, h, s) && store in s.completed && store in s.sections
            && store in Step(codec, h, s, call).sections ==>
              Step(codec, h, s, call).sections[store] == s.sections[store]
  {
    hide Rows, FilterAll, CleanContent, SizeOf, Bytes;
  }

  lemma {:induction false} DroppedStaysDropped(codec: Codec, h: Header, s: State, calls: seq<Call>, store: Text)
    requires store !in s.sections
    ensures store !in Run(codec, h, s, calls).sections
    decreases |calls|
  {
    hide Step;
    if calls != [] {
      CompleteSectionStep(codec, h, s, calls[0], store);
      DroppedStaysDropped(codec, h, Step(codec, h, s, calls[0]), calls[1..], store);
    }
  }

  lemma {:induction false} CompleteSectionsAreFrozen(codec: Codec, h: Header, s: State, calls: seq<Call>, store: Text)
    requires WellFormed(h) && Faithful(codec) && Inv(codec, h, s) && store in s.completed && store in s.sections
    ensures store in Run(codec, h, s, calls).sections ==> Run(codec, h, s, calls).sections[store] == s.sections[store]
    decreases |calls|
  {
    hide Step, Inv;
    if calls != [] {
      var next := Step(codec, h, s, calls[0]);
      StepKeepsInv(codec, h, s, calls[0]);
      CompleteSectionStep(codec, h, s, calls[0], store);
      if store in next.sections {
        CompleteSectionsAreFrozen(codec, h, next, calls[1..], store);
      } else {
        DroppedStaysDropped(codec, h, next, calls[1..], store);
      }
    }
  }

  /**
   Whatever was called before, and whatever has been written over the spool file: a package
   that is released is the one built from the collected sections, all of them complete,
   within bounds, and clean at every depth.
   */
  lemma {:induction false} ReleasedIsWhatWasCollected(codec: Codec, h: Header, calls: seq<Call>, now: int)
    requires WellFormed(h) && Faithful(codec)
    requires var s := Run(codec, h, Initial(h), calls);
             && RetrieveStep(codec, h, s, now).1.Some?
             && (codec.digest(s.spool.value.content) == codec.digest(ContentOf(h, s)) ==>
                   s.spool.value.content == ContentOf(h, s))
    ensures var s := Run(codec, h, Initial(h), calls);
            && RetrieveStep(codec, h, s, now).1 == Some(Package(ContentOf(h, s), codec.digest(ContentOf(h, s))))
            && s.completed == s.sections.Keys == (set store | store in h.stores)
            && CleanContent(codec.fold, s.sections) && Rows(h, s.sections, |h.stores|) <= MAX_BUNDLE_ROWS
            && forall store | store in s.sections && Silent(h.rules[store]) :: s.sections[store] == []
  {
    hide Run, Rows, CleanContent;
    InitialInv(codec, h);
    RunKeepsInv(codec, h, Initial(h), calls);
  }

  /**
   An empty batch for an excluded store reopens a package; building again gives the same
   package and the same state.
   */
  lemma {:induction false} RebuildIsIdentical(codec: Codec, h: Header, s: State, b: Batch)
    requires WellFormed(h) && Inv(codec, h, s) && s.status.Packaged?
    requires b.manifest == h.manifest && b.snapshotId == h.snapshotId && b.records == []
    requires b.store in s.sections && Silent(h.rules[b.store])
    ensures AddStep(codec, h, s, b).1 && AddStep(codec, h, s, b).0 == s.(status := Collecting)
    ensures BuildStep(codec, h, AddStep(codec, h, s, b).0) == (s, Some(Package(ContentOf(h, s), s.checksum.value)))
  {
    hide Rows, CleanContent;
    assert s.completed + {b.store} == s.completed;
  }

  /** A complete collection within bounds can be built, published and released. */
  lemma {:induction false} BuiltPackageIsReleased(codec: Codec, h: Header, s: State, now: int, later: int)
    requires WellFormed(h) && Inv(codec, h, s) && s.status.Collecting? && s.completed == s.sections.Keys
    requires codec.bundleSize(ContentOf(h, s)) <= MAX_BUNDLE_BYTES && s.spool.None?
    requires now < h.expiresAt && later < h.expiresAt
    ensures var (built, package) := BuildStep(codec, h, s);
            && package.Some?
            && PublishStep(codec, h, built, package.value, now).1
            && RetrieveStep(codec, h, PublishStep(codec, h, built, package.value, now).0, later).1 == package
  {
    hide Rows, CleanContent;
  }

  // ----- the objects -----

  class ExportRequest {
    const codec: Codec
    const header: Header
    var status: Status
    var sections: map<Text, seq<Fields>>
    var bytes: map<Text, nat>
    var completed: set<Text>
    var checksum: Option<int>
    var published: bool

    constructor (codec: Codec, header: Header)
      ensures this.codec == codec && this.header == header && Seen(None) == Initial(header)
    {
      this.codec, this.header := codec, header;
      status, completed, checksum, published := Pending, {}, None, false;
      sections := map store | store in header.stores :: [];
      bytes := map store | store in header.stores :: 0;
    }

    /** The request together with the spool file. */
    function Seen(spool: Option<Package>): State
      reads this
    {
      State(status, sections, bytes, completed, checksum, published, spool)
    }

    /** `add_section_batch` */
    method AddSectionBatch(b: Batch) returns (ok: bool)
      modifies this
      ensures forall spool :: (Seen(spool), ok) == AddStep(codec, header, old(Seen(spool)), b)
    {
      hide Rows, Bytes, SizeOf;
      if status in {Cancelled, Failed, Expired, Released} {
        return false;
      }
      if b.manifest != header.manifest || b.snapshotId != header.snapshotId {
        status := Failed;
        return false;
      }
      if b.store !in sections {
        status := Failed;
        return false;
      }
      if b.store !in header.rules {
        return false;
      }
      var rule := header.rules[b.store];
      if rule.disposition.Exclude? || rule.disposition.PendingRule? {
        if b.records != [] {
          status := Failed;
          return false;
        }
        completed := completed + {b.store};
        status := Collecting;
        return true;
      }
      if b.store in completed || |b.records| > MAX_SECTION_ROWS {
        return false;
      }
      var filtered := FilterBatch(rule, b.records);
      if filtered.None? {
        return false;
      }
      ok := Accept(b, filtered.value);
    }

    method FilterBatch(rule: Rule, records: seq<Fields>) returns (filtered: Option<seq<Fields>>)
      ensures filtered == FilterAll(codec.fold, rule, records)
    {
      var kept: seq<Fields> := [];
      for i := 0 to |records|
        invariant FilterAll(codec.fold, rule, records[..i]) == Some(kept)
      {
        assert records[..i + 1][..i] == records[..i];
        var one := FilterRecord(codec.fold, rule, records[i]);
        if one.None? {
          assert FilterAll(codec.fold, rule, records[..i + 1]).None?;
          RefusedStays(codec.fold, rule, records, i + 1);
          return None;
        }
        kept := kept + [one.value];
      }
      assert records[..|records|] == records;
      return Some(kept);
    }

    /** The bounds and the bookkeeping of an accepted batch. */
    method Accept(b: Batch, filtered: seq<Fields>) returns (ok: bool)
      requires b.store in sections
      modifies this
      ensures forall spool :: (Seen(spool), ok) == AcceptBatch(codec, header, old(Seen(spool)), b, filtered)
    {
      hide Rows, Bytes, SizeOf;
      var encoded := SizeOf(codec, filtered);
      var held := if b.store in bytes then bytes[b.store] else 0;
      if encoded > MAX_SECTION_BYTES || held + encoded > MAX_BUNDLE_BYTES {
        return false;
      }
      var section := sections[b.store];
      sections := sections[b.store := section + filtered];
      bytes := bytes[b.store := held + encoded];
      if Rows(header, sections, |header.stores|) > MAX_BUNDLE_ROWS
         || Bytes(header, bytes, |header.stores|) > MAX_BUNDLE_BYTES {
        status := Failed;
        return false;
      }
      status := Collecting;
      if b.final {
        sections := sections[b.store := codec.arrange(sections[b.store])];
        completed := completed + {b.store};
        assert sections == old(sections)[b.store := codec.arrange(section + filtered)];
      }
      return true;
    }

    /** `build_bundle` */
    method BuildBundle() returns (package: Option<Package>)
      modifies this
      ensures forall spool :: (Seen(spool), package) == BuildStep(codec, header, old(Seen(spool)))
    {
      if !status.Collecting? || completed != sections.Keys || !(sections.Keys <= header.rules.Keys) {
        return None;
      }
      var content := Content(header, sections);
      if codec.bundleSize(content) > MAX_BUNDLE_BYTES {
        status := Failed;
        return None;
      }
      checksum := Some(codec.digest(content));
      status := Packaged;
      return Some(Package(content, checksum.value));
    }
  }

  lemma {:induction false} RefusedStays(fold: Fold, rule: Rule, records: seq<Fields>, n: nat)
    requires n <= |records| && FilterAll(fold, rule, records[..n]).None?
    ensures FilterAll(fold, rule, records).None?
  {
    if n == |records| {
      assert records[..n] == records;
    } else {
      assert records[..|records| - 1][..n] == records[..n];
      RefusedStays(fold, rule, records[..|records| - 1], n);
    }
  }

  class ExportSpool {
    /** The file at the request's path. */
    var file: Option<Package>

    constructor ()
      ensures file.None?
    {
      file := None;
    }

    method Publish(request: ExportRequest, package: Package, now: int) returns (ok: bool)
      modifies this, request
      ensures (request.Seen(file), ok) ==
                PublishStep(request.codec, request.header, old(request.Seen(file)), package, now)
    {
      hide CleanContent;
      if !request.status.Packaged? {
        return false;
      }
      if now >= request.header.expiresAt {
        request.status := Expired;
        return false;
      }
      if !Verifies(request.codec, package) || package.content.header.id != request.header.id
         || request.checksum != Some(package.checksum) {
        return false;
      }
      if file.Some? {
        if file.value != package {
          return false;
        }
        request.published := true;
        return true;
      }
      file := Some(package);
      request.published := true;
      return true;
    }

    method RetrieveOnce(request: ExportRequest, now: int) returns (package: Option<Package>)
      modifies this, request
      ensures (request.Seen(file), package) == RetrieveStep(request.codec, request.header, old(request.Seen(file)), now)
    {
      hide CleanContent;
      if now >= request.header.expiresAt {
        var _ := Expire(request, now);
        return None;
      }
      if !request.status.Packaged? || !request.published || file.None? {
        return None;
      }
      var found := file.value;
      if !Verifies(request.codec, found) || found.content.header.id != request.header.id
         || request.checksum != Some(found.checksum) {
        return None;
      }
      file := None;
      request.published := false;
      request.status := Released;
      return Some(found);
    }

    method Cancel(request: ExportRequest)
      modifies this, request
      ensures request.Seen(file) == Dropped(old(request.Seen(file)), Cancelled)
    {
      if request.published {
        file := None;
        request.published := false;
      }
      request.sections := map[];
      request.status := Cancelled;
    }

    method Expire(request: ExportRequest, now: int) returns (ok: bool)
      modifies this, request
      ensures (request.Seen(file), ok) == ExpireStep(request.header, old(request.Seen(file)), now)
    {
      if now < request.header.expiresAt {
        return false;
      }
      if request.published {
        file := None;
        request.published := false;
      }
      request.sections := map[];
      request.status := Expired;
      return true;
    }
  }
}
