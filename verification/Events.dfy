/** Canonical events: the constructor that trims, defaults and checks, and why feeding an event's
    own values back through it changes nothing. */
module Events {
  import opened Prelude
  import opened Text
  import opened Tags

  // The source's kinds and levels are strings; Other is any string that is none of the named ones.
  datatype EventKind = ErrorKind | DefaultKind | TransactionKind | OtherKind(text: string)

  datatype EventLevel = Fatal | Error | Warning | Info | Debug | OtherLevel(text: string)

  const TRANSACTION_NAME_MAX_BYTES := 512
  const TRANSACTION_OPERATION_MAX_BYTES := 128
  const TRANSACTION_STATUS_MAX_BYTES := 64

  // A title is the zero value or what NewEventTitle returned.
  type EventTitle = t: string | Trimmed(t) witness ""

  datatype TraceContext = TraceContext(traceId: string, spanId: string, parentSpanId: string)

  datatype TransactionSpan = TransactionSpan(
    spanId: string, parentSpanId: string, operation: string, description: string, duration: int, status: string)

  // The zero value, without a name, is no transaction data.
  datatype TransactionData = TransactionData(
    name: string, operation: string, duration: int, status: string, trace: Option<TraceContext>,
    spans: seq<TransactionSpan>)

  const NO_TRANSACTION := TransactionData("", "", 0, "", None, [])

  // What the constructor checks and keeps as it is; a time of None is the zero time.
  datatype EventHead = EventHead(
    organizationId: string, projectId: string, eventId: string, occurredAt: Option<int>, receivedAt: Option<int>,
    kind: EventKind, level: EventLevel, title: EventTitle)

  datatype Dimensions = Dimensions(platform: string, release: string, environment: string)

  datatype Transacted = Transacted(data: TransactionData, has: bool)

  // `copied` is the attachments, frames and modules.
  datatype EventParams<P> = EventParams(
    head: EventHead, dimensions: Dimensions, tags: TagMap, groupingParts: seq<string>, fingerprint: seq<string>,
    copied: P, transaction: TransactionData)

  datatype CanonicalEvent<P> = CanonicalEvent(
    head: EventHead, dimensions: Dimensions, tags: TagMap, groupingParts: seq<string>, fingerprint: seq<string>,
    copied: P, transaction: Transacted)

  datatype EventError =
    | OrganizationRequired | ProjectRequired | EventIdRequired | OccurredRequired | ReceivedRequired
    | InvalidKind | InvalidLevel | TitleRequired | UnexpectedTransaction | Transaction(reason: TextError)
    | NegativeDuration

  datatype TextError = Required | TooLong | ControlCharacters

  function NewEventTitle(input: string): (r: Result<EventTitle, EventError>)
    ensures r.Ok? ==> r.value != ""
  {
    var value := TrimSpace(input);
    if value == "" then Err(TitleRequired) else Ok(value)
  }

  /** A title is made of every text with some character that is no blank, and is that text but for
      the blanks around it. */
  lemma NewEventTitleExactly(input: string) returns (left: string, right: string)
    ensures NewEventTitle(input).Ok? <==> !AllBlank(input)
    ensures NewEventTitle(input).Ok? ==>
              input == left + NewEventTitle(input).value + right && AllBlank(left) && AllBlank(right)
  {
    TrimSpaceOfBlanks(input);
    left, right := TrimSpaceSplits(input);
  }

  // ---- transaction data ----

  // unicode.IsControl
  predicate IsControlRune(c: char) {
    c < ' ' || '\U{007F}' <= c <= '\U{009F}'
  }

  predicate NoControlRunes(s: string) {
    forall i :: 0 <= i < |s| ==> !IsControlRune(s[i])
  }

  function PerformanceText(value: string, limit: nat): Result<string, TextError> {
    if ByteLen(value) > limit then Err(TooLong)
    else if !NoControlRunes(value) then Err(ControlCharacters)
    else Ok(value)
  }

  function RequiredText(input: string, limit: nat): Result<string, TextError> {
    var value := TrimSpace(input);
    if value == "" then Err(Required) else PerformanceText(value, limit)
  }

  function OptionalText(input: string, fallback: string, limit: nat): Result<string, TextError> {
    var trimmed := TrimSpace(input);
    var value := if trimmed == "" then fallback else trimmed;
    if value == "" then Ok("") else PerformanceText(value, limit)
  }

  function TransactionOf(name: Result<string, TextError>, operation: Result<string, TextError>, duration: int,
                         status: Result<string, TextError>, spans: seq<TransactionSpan>)
    : Result<TransactionData, EventError> {
    if name.Err? then Err(Transaction(name.error))
    else if operation.Err? then Err(Transaction(operation.error))
    else if status.Err? then Err(Transaction(status.error))
    else if duration < 0 then Err(NegativeDuration)
    else Ok(TransactionData(name.value, operation.value, duration, status.value, None, spans))
  }

  function NewTransactionData(name: string, operation: string, duration: int, status: string,
                              spans: seq<TransactionSpan>): Result<TransactionData, EventError> {
    TransactionOf(RequiredText(name, TRANSACTION_NAME_MAX_BYTES),
                  OptionalText(operation, "default", TRANSACTION_OPERATION_MAX_BYTES), duration,
                  OptionalText(status, "unknown", TRANSACTION_STATUS_MAX_BYTES), spans)
  }

  // An optional text is usable when what it comes to fits.
  predicate Fits(text: string, fallback: string, limit: nat) {
    var kept := KeptText(text, fallback);
    kept == "" || (ByteLen(kept) <= limit && NoControlRunes(kept))
  }

  lemma RequiredTextExactly(text: string, limit: nat)
    ensures RequiredText(text, limit).Ok? <==> TrimSpace(text) != "" && Fits(text, "", limit)
    ensures RequiredText(text, limit).Ok? ==> RequiredText(text, limit).value == TrimSpace(text)
  {
  }

  function KeptText(text: string, fallback: string): string {
    if TrimSpace(text) == "" then fallback else TrimSpace(text)
  }

  lemma OptionalTextExactly(text: string, fallback: string, limit: nat)
    ensures OptionalText(text, fallback, limit).Ok? <==> Fits(text, fallback, limit)
    ensures OptionalText(text, fallback, limit).Ok? ==> OptionalText(text, fallback, limit).value == KeptText(text, fallback)
  {
  }

  /** Transaction data is made exactly from a name, an operation and a status that fit and a duration
      that is not negative; it holds them trimmed, with the defaults for blank ones, and the spans. */
  lemma TransactionDataExactly(name: string, operation: string, duration: int, status: string, spans: seq<TransactionSpan>)
    ensures
      var made := NewTransactionData(name, operation, duration, status, spans);
      && (made.Ok? <==> TrimSpace(name) != "" && Fits(name, "", 512) && Fits(operation, "default", 128)
                        && Fits(status, "unknown", 64) && duration >= 0)
      && (made.Ok? ==> made.value == TransactionData(TrimSpace(name), KeptText(operation, "default"), duration,
                                                     KeptText(status, "unknown"), None, spans))
  {
    RequiredTextExactly(name, 512);
    OptionalTextExactly(operation, "default", 128);
    OptionalTextExactly(status, "unknown", 64);
    MadeOfTexts(RequiredText(name, 512), OptionalText(operation, "default", 128), duration,
                OptionalText(status, "unknown", 64), spans);
  }

  lemma MadeOfTexts(name: Result<string, TextError>, operation: Result<string, TextError>, duration: int,
                    status: Result<string, TextError>, spans: seq<TransactionSpan>)
    ensures TransactionOf(name, operation, duration, status, spans).Ok?
        <==> name.Ok? && operation.Ok? && status.Ok? && duration >= 0
    ensures TransactionOf(name, operation, duration, status, spans).Ok? ==>
              TransactionOf(name, operation, duration, status, spans).value
              == TransactionData(name.value, operation.value, duration, status.value, None, spans)
    ensures duration >= 0 && TransactionOf(name, operation, duration, status, spans).Err? ==>
              TransactionOf(name, operation, duration, status, spans).error.Transaction?
  {
  }

  // A title that can name a transaction.
  predicate NamesTransaction(title: string) {
    title != "" && ByteLen(title) <= TRANSACTION_NAME_MAX_BYTES && NoControlRunes(title)
  }

  lemma TitleAsName(title: EventTitle)
    ensures RequiredText(title, TRANSACTION_NAME_MAX_BYTES).Ok? <==> NamesTransaction(title)
    ensures NamesTransaction(title) ==> RequiredText(title, TRANSACTION_NAME_MAX_BYTES) == Ok(title)
  {
  }

  lemma PlainWordFits(word: string, limit: nat)
    requires word != "" && Trimmed(word) && |word| <= limit
    requires forall i :: 0 <= i < |word| ==> 'a' <= word[i] <= 'z'
    ensures OptionalText(word, word, limit) == Ok(word)
  {
    ByteLenAscii(word);
  }

  lemma DefaultWordsFit()
    ensures OptionalText("default", "default", TRANSACTION_OPERATION_MAX_BYTES) == Ok("default")
    ensures OptionalText("unknown", "unknown", TRANSACTION_STATUS_MAX_BYTES) == Ok("unknown")
  {
    PlainWordFits("default", TRANSACTION_OPERATION_MAX_BYTES);
    PlainWordFits("unknown", TRANSACTION_STATUS_MAX_BYTES);
  }

  function DefaultTransaction(title: EventTitle): Result<TransactionData, EventError> {
    NewTransactionData(title, "default", 0, "unknown", [])
  }

  /** The transaction an event gets by default carries its title, and exists exactly for a title
      that is short enough and has no control characters. */
  lemma DefaultTransactionExactly(title: EventTitle)
    ensures DefaultTransaction(title).Ok? <==> NamesTransaction(title)
    ensures DefaultTransaction(title).Ok? ==>
              DefaultTransaction(title).value == TransactionData(title, "default", 0, "unknown", None, [])
  {
    TitleAsName(title);
    DefaultWordsFit();
    MadeOfTexts(RequiredText(title, TRANSACTION_NAME_MAX_BYTES), Ok("default"), 0, Ok("unknown"), []);
  }

  function CanonicalTransaction(kind: EventKind, title: EventTitle, given: TransactionData)
    : Result<Transacted, EventError> {
    if kind != TransactionKind && given.name != "" then Err(UnexpectedTransaction)
    else if kind != TransactionKind then Ok(Transacted(NO_TRANSACTION, false))
    else if given.name != "" then Ok(Transacted(given, true))
    else
      var made := DefaultTransaction(title);
      if made.Err? then Err(made.error) else Ok(Transacted(made.value, true))
  }

  predicate TransactionFits(kind: EventKind, title: string, given: TransactionData) {
    if kind == TransactionKind then given.name != "" || NamesTransaction(title) else given.name == ""
  }

  /** Transaction data is present exactly for transactions, and is kept when it is given again. */
  lemma TransactionSettles(kind: EventKind, title: EventTitle, given: TransactionData)
    ensures CanonicalTransaction(kind, title, given).Ok? <==> TransactionFits(kind, title, given)
    ensures CanonicalTransaction(kind, title, given).Ok? ==>
              && var t := CanonicalTransaction(kind, title, given).value;
                 (t.has <==> kind == TransactionKind) && (t.has <==> t.data.name != "")
                 && CanonicalTransaction(kind, title, t.data) == Ok(t)
  {
    DefaultTransactionExactly(title);
  }

  // ---- grouping parts ----

  function NormalizedParts(parts: seq<string>): seq<string> {
    if parts == [] then []
    else
      var before, value := NormalizedParts(parts[..|parts| - 1]), TrimSpace(parts[|parts| - 1]);
      if value == "" then before else before + [value]
  }

  method NormalizeParts(parts: seq<string>) returns (result: seq<string>)
    ensures result == NormalizedParts(parts)
  {
    result := [];
    for i := 0 to |parts|
      invariant result == NormalizedParts(parts[..i])
    {
      assert parts[..i + 1][..i] == parts[..i];
      var value := TrimSpace(parts[i]);
      if value == "" { continue; }
      result := result + [value];
    }
    assert parts[..|parts|] == parts;
  }

  function TrimmedParts(parts: seq<string>): (values: seq<string>)
    ensures |values| == |parts| && forall i :: 0 <= i < |parts| ==> values[i] == TrimSpace(parts[i])
  {
    seq(|parts|, i requires 0 <= i < |parts| => TrimSpace(parts[i]))
  }

  // `kept` picks out, in order, exactly the values that are not empty; the result is those.
  predicate Picks(values: seq<string>, kept: seq<nat>, result: seq<string>) {
    && |kept| == |result|
    && (forall k :: 0 <= k < |kept| ==> kept[k] < |values| && result[k] == values[kept[k]] != "")
    && (forall k, l :: 0 <= k < l < |kept| ==> kept[k] < kept[l])
    && (forall i :: 0 <= i < |values| && values[i] != "" ==> i in kept)
  }

  ghost predicate TrimmedNonBlankOf(parts: seq<string>, result: seq<string>) {
    exists kept :: Picks(TrimmedParts(parts), kept, result)
  }

  lemma {:induction false} NormalizedPartsPick(parts: seq<string>) returns (kept: seq<nat>)
    ensures Picks(TrimmedParts(parts), kept, NormalizedParts(parts))
  {
    if parts == [] {
      kept := [];
    } else {
      var n := |parts| - 1;
      var before := NormalizedPartsPick(parts[..n]);
      var value := TrimSpace(parts[n]);
      assert TrimmedParts(parts) == TrimmedParts(parts[..n]) + [value];
      kept := PickedOneMore(TrimmedParts(parts[..n]), before, NormalizedParts(parts[..n]), value);
    }
  }

  lemma PickedOneMore(values: seq<string>, before: seq<nat>, result: seq<string>, value: string) returns (kept: seq<nat>)
    requires Picks(values, before, result)
    ensures Picks(values + [value], kept, if value == "" then result else result + [value])
  {
    kept := if value == "" then before else before + [|values|];
    forall i | 0 <= i < |values + [value]| && (values + [value])[i] != ""
      ensures i in kept
    {
      if i < |values| {
        assert i in before;
      } else {
        assert kept[|kept| - 1] == i;
      }
    }
  }

  predicate NormalParts(parts: seq<string>) {
    forall i :: 0 <= i < |parts| ==> NormalText(parts[i])
  }

  lemma {:induction false} NormalizedPartsAreNormal(parts: seq<string>)
    ensures NormalParts(NormalizedParts(parts))
  {
    if parts != [] { NormalizedPartsAreNormal(parts[..|parts| - 1]); }
  }

  lemma {:induction false} NormalPartsStay(parts: seq<string>)
    requires NormalParts(parts)
    ensures NormalizedParts(parts) == parts
  {
    if parts != [] {
      var front, last := parts[..|parts| - 1], parts[|parts| - 1];
      assert forall i :: 0 <= i < |front| ==> front[i] == parts[i];
      NormalPartsStay(front);
      assert NormalText(last);
      assert parts == front + [last];
    }
  }

  function GroupingParts(parts: seq<string>, title: EventTitle): seq<string> {
    var normalized := NormalizedParts(parts);
    if normalized == [] then [title] else normalized
  }

  /** Grouping parts are never empty, never blank, and stay as they are. */
  lemma GroupingPartsSettle(parts: seq<string>, title: EventTitle)
    requires title != ""
    ensures GroupingParts(parts, title) != [] && NormalParts(GroupingParts(parts, title))
    ensures GroupingParts(GroupingParts(parts, title), title) == GroupingParts(parts, title)
  {
    NormalizedPartsAreNormal(parts);
    assert NormalParts([title]);
    NormalPartsStay(GroupingParts(parts, title));
  }

  // ---- the constructor ----

  function NormalizedDimensions(d: Dimensions): Dimensions {
    var platform := TrimSpace(d.platform);
    Dimensions(if platform == "" then "other" else platform, TrimSpace(d.release), TrimSpace(d.environment))
  }

  predicate NormalDimensions(d: Dimensions) {
    NormalText(d.platform) && Trimmed(d.release) && Trimmed(d.environment)
  }

  lemma DimensionsSettle(d: Dimensions)
    ensures NormalDimensions(NormalizedDimensions(d))
    ensures NormalDimensions(d) ==> NormalizedDimensions(d) == d
  {
  }

  function FirstMissing(h: EventHead): Option<EventError> {
    if h.organizationId == "" then Some(OrganizationRequired)
    else if h.projectId == "" then Some(ProjectRequired)
    else if h.eventId == "" then Some(EventIdRequired)
    else if h.occurredAt == None then Some(OccurredRequired)
    else if h.receivedAt == None then Some(ReceivedRequired)
    else if h.kind.OtherKind? then Some(InvalidKind)
    else if h.level.OtherLevel? then Some(InvalidLevel)
    else if h.title == "" then Some(TitleRequired)
    else None
  }

  function NewCanonicalEvent<P>(p: EventParams<P>, tagOrder: seq<string>): Result<CanonicalEvent<P>, EventError>
    requires KeysOf(p.tags, tagOrder)
  {
    if FirstMissing(p.head).Some? then Err(FirstMissing(p.head).value)
    else
      var transaction := CanonicalTransaction(p.head.kind, p.head.title, p.transaction);
      if transaction.Err? then Err(transaction.error)
      else Ok(CanonicalEvent(
                p.head, NormalizedDimensions(p.dimensions), NormalizedTags(p.tags, tagOrder),
                GroupingParts(p.groupingParts, p.head.title), NormalizedParts(p.fingerprint), p.copied,
                transaction.value))
  }

  // The values the event's accessors hand out, as parameters again.
  function ParamsOf<P>(e: CanonicalEvent<P>): EventParams<P> {
    EventParams(e.head, e.dimensions, e.tags, e.groupingParts, e.fingerprint, e.copied, e.transaction.data)
  }

  predicate HasRequiredParts(h: EventHead) {
    && h.organizationId != "" && h.projectId != "" && h.eventId != ""
    && h.occurredAt.Some? && h.receivedAt.Some?
    && !h.kind.OtherKind? && !h.level.OtherLevel? && h.title != ""
  }

  /** An event is built exactly from parameters that have every required part and transaction
      data that suits the kind. */
  lemma BuiltExactly<P>(p: EventParams<P>, tagOrder: seq<string>)
    requires IsOrder(p.tags, tagOrder)
    ensures NewCanonicalEvent(p, tagOrder).Ok? <==>
            HasRequiredParts(p.head) && TransactionFits(p.head.kind, p.head.title, p.transaction)
  {
    TransactionSettles(p.head.kind, p.head.title, p.transaction);
  }

  lemma GroupingPartsAre(parts: seq<string>, title: EventTitle)
    ensures (exists i :: 0 <= i < |parts| && TrimSpace(parts[i]) != "") ==>
              TrimmedNonBlankOf(parts, GroupingParts(parts, title))
    ensures (forall i :: 0 <= i < |parts| ==> TrimSpace(parts[i]) == "") ==> GroupingParts(parts, title) == [title]
  {
    var kept := NormalizedPartsPick(parts);
    assert Picks(TrimmedParts(parts), kept, NormalizedParts(parts));
    if NormalizedParts(parts) != [] { assert TrimmedParts(parts)[kept[0]] != ""; }
    forall i | 0 <= i < |parts| && TrimSpace(parts[i]) != ""
      ensures NormalizedParts(parts) != []
    {
      assert TrimmedParts(parts)[i] != "" && i in kept;
    }
  }

  // The two part lists of an event come from their own parameters.
  ghost predicate CarriesParts<P>(p: EventParams<P>, e: CanonicalEvent<P>) {
    && TrimmedNonBlankOf(p.fingerprint, e.fingerprint)
    && ((exists i :: 0 <= i < |p.groupingParts| && TrimSpace(p.groupingParts[i]) != "") ==>
          TrimmedNonBlankOf(p.groupingParts, e.groupingParts))
    && ((forall i :: 0 <= i < |p.groupingParts| ==> TrimSpace(p.groupingParts[i]) == "") ==>
          e.groupingParts == [p.head.title])
  }

  predicate CarriesDimensions(given: Dimensions, kept: Dimensions) {
    && kept.release == TrimSpace(given.release) && kept.environment == TrimSpace(given.environment)
    && (TrimSpace(given.platform) != "" ==> kept.platform == TrimSpace(given.platform))
    && (TrimSpace(given.platform) == "" ==> kept.platform == "other")
  }

  predicate CarriesTransaction(head: EventHead, given: TransactionData, kept: Transacted) {
    if given.name != "" then kept == Transacted(given, true)
    else if head.kind == TransactionKind then
      kept == Transacted(TransactionData(head.title, "default", 0, "unknown", None, []), true)
    else kept == Transacted(TransactionData("", "", 0, "", None, []), false)
  }

  lemma TransactionIsCarried(head: EventHead, given: TransactionData)
    ensures CanonicalTransaction(head.kind, head.title, given).Ok? ==>
              CarriesTransaction(head, given, CanonicalTransaction(head.kind, head.title, given).value)
  {
    DefaultTransactionExactly(head.title);
  }

  lemma DimensionsAreCarried(given: Dimensions)
    ensures CarriesDimensions(given, NormalizedDimensions(given))
  {
  }

  lemma PartsAreCarried<P>(p: EventParams<P>, e: CanonicalEvent<P>)
    requires e.fingerprint == NormalizedParts(p.fingerprint)
    requires e.groupingParts == GroupingParts(p.groupingParts, p.head.title)
    ensures CarriesParts(p, e)
  {
    var kept := NormalizedPartsPick(p.fingerprint);
    assert TrimmedNonBlankOf(p.fingerprint, e.fingerprint);
    GroupingPartsAre(p.groupingParts, p.head.title);
  }

  /** A built event carries its own parameters: head and copies as they are, each part list from
      its own, dimensions trimmed, every tag a trimmed value under its trimmed key, and the given
      transaction data, or the default one of a transaction, or none. */
  lemma BuiltEventCarriesItsParameters<P>(p: EventParams<P>, tagOrder: seq<string>, e: CanonicalEvent<P>)
    requires IsOrder(p.tags, tagOrder) && NewCanonicalEvent(p, tagOrder) == Ok(e)
    ensures e.head == p.head && e.copied == p.copied
    ensures CarriesParts(p, e) && CarriesDimensions(p.dimensions, e.dimensions)
    ensures CarriesTransaction(p.head, p.transaction, e.transaction)
    ensures forall n :: n in e.tags <==> IsName(p.tags, n)
    ensures forall n :: n in e.tags ==> exists k :: k in p.tags && TrimSpace(k) == n && TrimSpace(p.tags[k]) == e.tags[n]
  {
    PartsAreCarried(p, e);
    DimensionsAreCarried(p.dimensions);
    TransactionIsCarried(p.head, p.transaction);
    TagsAreCarried(p.tags, tagOrder);
  }

  lemma TagsAreCarried(tags: TagMap, order: seq<string>)
    requires IsOrder(tags, order)
    ensures forall n :: n in NormalizedTags(tags, order) <==> IsName(tags, n)
    ensures forall n :: n in NormalizedTags(tags, order) ==>
              exists k :: k in tags && TrimSpace(k) == n && TrimSpace(tags[k]) == NormalizedTags(tags, order)[n]
  {
    forall n
      ensures n in NormalizedTags(tags, order) <==> IsName(tags, n)
    {
      NamesIgnoreOrder(tags, order, n);
    }
    forall n | n in NormalizedTags(tags, order)
      ensures exists k :: k in tags && TrimSpace(k) == n && TrimSpace(tags[k]) == NormalizedTags(tags, order)[n]
    {
      var i := ValueIsFromLastKey(tags, order, n);
      assert order[i] in tags;
    }
  }

  /** A refusal names the first part, in the order of the checks, that is missing or unknown. */
  lemma RefusalNamesItsCause<P>(p: EventParams<P>, tagOrder: seq<string>, h: EventHead)
    requires IsOrder(p.tags, tagOrder) && h == p.head
    ensures
      var r := NewCanonicalEvent(p, tagOrder);
      && (r == Err(OrganizationRequired) <==> h.organizationId == "")
      && (r == Err(ProjectRequired) ==> h.projectId == "") && (r == Err(EventIdRequired) ==> h.eventId == "")
      && (r == Err(OccurredRequired) ==> h.occurredAt == None) && (r == Err(ReceivedRequired) ==> h.receivedAt == None)
      && (r == Err(InvalidKind) ==> h.kind.OtherKind?) && (r == Err(InvalidLevel) ==> h.level.OtherLevel?)
      && (r == Err(TitleRequired) ==> h.title == "")
      && (r == Err(UnexpectedTransaction) ==> HasRequiredParts(h) && h.kind != TransactionKind && p.transaction.name != "")
      && (r.Err? && r.error.Transaction? ==> HasRequiredParts(h) && h.kind == TransactionKind && p.transaction.name == "")
  {
    TransactionSettles(h.kind, h.title, p.transaction);
    OnlyTransactionsDefault(h.kind, h.title, p.transaction);
  }

  lemma OnlyTransactionsDefault(kind: EventKind, title: EventTitle, given: TransactionData)
    ensures
      var t := CanonicalTransaction(kind, title, given);
      && (t.Err? ==> t.error == UnexpectedTransaction || t.error.Transaction?)
      && (t == Err(UnexpectedTransaction) <==> kind != TransactionKind && given.name != "")
  {
    MadeOfTexts(RequiredText(title, TRANSACTION_NAME_MAX_BYTES),
                OptionalText("default", "default", TRANSACTION_OPERATION_MAX_BYTES), 0,
                OptionalText("unknown", "unknown", TRANSACTION_STATUS_MAX_BYTES), []);
  }

  predicate NormalEvent<P>(e: CanonicalEvent<P>) {
    && e.groupingParts != [] && NormalParts(e.groupingParts) && NormalParts(e.fingerprint)
    && Normal(e.tags) && NormalDimensions(e.dimensions)
  }

  /** Every built event has grouping parts, has nothing blank or padded in it, and has transaction
      data exactly when it is a transaction. */
  lemma BuiltEventIsNormal<P>(p: EventParams<P>, tagOrder: seq<string>, e: CanonicalEvent<P>)
    requires IsOrder(p.tags, tagOrder) && NewCanonicalEvent(p, tagOrder) == Ok(e)
    ensures NormalEvent(e)
    ensures e.transaction.has <==> e.head.kind == TransactionKind
    ensures e.transaction.has <==> e.transaction.data.name != ""
  {
    GroupingPartsSettle(p.groupingParts, p.head.title);
    NormalizedPartsAreNormal(p.fingerprint);
    NormalizedIsNormal(p.tags, tagOrder);
    DimensionsSettle(p.dimensions);
    TransactionSettles(p.head.kind, p.head.title, p.transaction);
  }

  /** Building is a fixpoint: an event's own values build that event again, whatever order its
      tags are visited in. */
  lemma CanonicalIsFixpoint<P>(p: EventParams<P>, tagOrder: seq<string>, e: CanonicalEvent<P>, again: seq<string>)
    requires IsOrder(p.tags, tagOrder) && NewCanonicalEvent(p, tagOrder) == Ok(e)
    requires IsOrder(e.tags, again)
    ensures NewCanonicalEvent(ParamsOf(e), again) == Ok(e)
  {
    BuiltEventIsNormal(p, tagOrder, e);
    TransactionSettles(p.head.kind, p.head.title, p.transaction);
    GroupingPartsSettle(p.groupingParts, p.head.title);
    DimensionsSettle(e.dimensions);
    NormalTagsStay(e.tags, again);
    NormalPartsStay(e.fingerprint);
  }
}
