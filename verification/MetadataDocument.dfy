/** The model.json document of one model: writing it, keeping its limits in step with the form, and
    reading it back. A document is its list of models; the JSON around the list is not modelled. */
module MetadataDocument {
  import opened Wrappers
  import opened Text
  import opened Decimal
  import opened TokenLimits
  import opened JsonRecords

  datatype Item = Model(fields: Record) | NotAModel(id: nat)

  // ---- The operations ----

  /** `contextWindowToTokens`: a window that JavaScript's numbers hold exactly. */
  function SafeWindow(text: string): Option<nat> {
    var w := Window(text);
    if w.Some? && w.value <= MAX_SAFE_INTEGER then w else None
  }

  function NumberField(key: string, value: Option<nat>): Record {
    match value
    case Some(n) => [Field(key, Integer(n))]
    case None => []
  }

  /** `serializeModelMetadataDocument`. */
  function Serialized(slug: string, metadata: Record, window: string, percent: string): Record {
    [Field(SLUG, Str(slug))] + NumberField(CONTEXT_WINDOW, SafeWindow(window))
    + NumberField(TOKEN_LIMIT, PercentToLimit(window, percent)) + Unmanaged(metadata)
  }

  predicate IsMatch(item: Item, slug: string) {
    item.Model? && Get(item.fields, SLUG) == Some(Str(slug))
  }

  function Matches(doc: seq<Item>, slug: string): seq<nat>
  {
    if doc == [] then []
    else
      var n := |doc| - 1;
      Matches(doc[..n], slug) + (if IsMatch(doc[n], slug) then [n] else [])
  }

  /** A limit field of a model: the number, or null if it was there and is cleared. */
  function Assigned(fs: Record, key: string, value: Option<nat>): Record {
    match value
    case Some(n) => Put(fs, key, Integer(n))
    case None => if Get(fs, key).Some? then Put(fs, key, Null) else fs
  }

  function SyncedWindow(fs: Record, window: string): Record {
    Reordered(Assigned(fs, CONTEXT_WINDOW, SafeWindow(Trim(JavaScript, window))))
  }

  function SyncedLimits(fs: Record, window: string, percent: string): Record {
    Reordered(Assigned(SyncedWindow(fs, window), TOKEN_LIMIT, PercentToLimit(window, percent)))
  }

  /** The form's window can be written: it is blank or a number JavaScript holds. */
  predicate Writable(window: string) {
    Trim(JavaScript, window) == "" || SafeWindow(Trim(JavaScript, window)).Some?
  }

  /** The one model of a document with this slug. */
  predicate OnlyMatch(doc: seq<Item>, slug: string, i: nat) {
    && i < |doc| && IsMatch(doc[i], slug)
    && forall j :: 0 <= j < |doc| && IsMatch(doc[j], slug) ==> j == i
  }

  lemma MatchesSnoc(doc: seq<Item>, n: nat, slug: string)
    requires |doc| == n + 1
    ensures Matches(doc, slug) == Matches(doc[..n], slug) + (if IsMatch(doc[n], slug) then [n] else [])
    ensures forall i :: 0 <= i < n ==> doc[..n][i] == doc[i]
  {
  }

  lemma {:induction false} MatchesAre(doc: seq<Item>, slug: string, i: nat)
    ensures i in Matches(doc, slug) <==> i < |doc| && IsMatch(doc[i], slug)
    ensures |Matches(doc, slug)| == 1 && i == Matches(doc, slug)[0] ==> OnlyMatch(doc, slug, i)
    ensures OnlyMatch(doc, slug, i) ==> Matches(doc, slug) == [i]
    ensures (forall j :: 0 <= j < |doc| ==> !IsMatch(doc[j], slug)) <==> Matches(doc, slug) == []
  {
    if doc != [] {
      var n := |doc| - 1;
      MatchesAre(doc[..n], slug, i);
      MatchesSnoc(doc, n, slug);
    }
  }

  lemma AssignedUnique(fs: Record, key: string, value: Option<nat>)
    requires UniqueFields(fs)
    ensures UniqueFields(Assigned(fs, key, value))
  {
    match value {
      case Some(n) => PutUnique(fs, key, Integer(n));
      case None => PutUnique(fs, key, Null);
    }
  }

  // ---- Synchronising a document ----

  ghost predicate Parsed(doc: seq<Item>) {
    forall i :: 0 <= i < |doc| && doc[i].Model? ==> UniqueFields(doc[i].fields)
  }

  function SyncWindow(doc: seq<Item>, slug: string, window: string): Option<seq<Item>> {
    var m := Matches(doc, slug);
    if |m| != 1 || !Writable(window) then None
    else
      MatchesAre(doc, slug, m[0]);
      Some(doc[m[0] := Model(SyncedWindow(doc[m[0]].fields, window))])
  }

  function SyncLimits(doc: seq<Item>, slug: string, window: string, percent: string): Option<seq<Item>> {
    var m := Matches(doc, slug);
    if |m| != 1 || !Writable(window) then None
    else
      MatchesAre(doc, slug, m[0]);
      Some(doc[m[0] := Model(SyncedLimits(doc[m[0]].fields, window, percent))])
  }

  lemma AssignedGet(fs: Record, key: string, value: Option<nat>, k: string)
    ensures Get(Assigned(fs, key, value), k)
            == if k != key then Get(fs, k)
               else if value.Some? then Some(Integer(value.value))
               else if Get(fs, key).Some? then Some(Null)
               else None
  {
    match value {
      case Some(n) => GetPut(fs, key, Integer(n), k);
      case None => GetPut(fs, key, Null, k);
    }
  }

  lemma SyncedWindowGet(fs: Record, window: string, k: string)
    requires k != CONTEXT_WINDOW
    ensures Get(SyncedWindow(fs, window), k) == Get(fs, k)
  {
    var value := SafeWindow(Trim(JavaScript, window));
    ReorderedKeeps(Assigned(fs, CONTEXT_WINDOW, value), k);
    AssignedGet(fs, CONTEXT_WINDOW, value, k);
  }

  lemma OnlyMatchUpdated(doc: seq<Item>, slug: string, i: nat, fs: Record)
    requires OnlyMatch(doc, slug, i) && Get(fs, SLUG) == Some(Str(slug))
    ensures OnlyMatch(doc[i := Model(fs)], slug, i) && Matches(doc[i := Model(fs)], slug) == [i]
  {
    MatchesAre(doc[i := Model(fs)], slug, i);
  }

  /** Writes a limit into a model object and puts its fields in order. */
  method WriteField(model: ModelObject, key: string, value: Option<nat>)
    requires UniqueFields(model.fields)
    modifies model
    ensures model.fields == Reordered(Assigned(old(model.fields), key, value)) && UniqueFields(model.fields)
  {
    AssignedUnique(model.fields, key, value);
    ReorderedUnique(Assigned(model.fields, key, value));
    if value.Some? {
      model.Assign(key, Integer(value.value));
    } else if Get(model.fields, key).Some? {
      model.Assign(key, Null);
    }
    model.Reorder();
  }

  method SynchronizeContextWindow(doc: seq<Item>, slug: string, window: string) returns (written: Option<seq<Item>>)
    requires Parsed(doc)
    ensures written == SyncWindow(doc, slug, window)
    ensures written.Some? ==> Parsed(written.value)
  {
    var matches := Matches(doc, slug);
    if |matches| != 1 { return None; }
    var i := matches[0];
    MatchesAre(doc, slug, i);
    var trimmed := Trim(JavaScript, window);
    var tokens := SafeWindow(trimmed);
    if trimmed != "" && tokens.None? { return None; }
    var model := new ModelObject(doc[i].fields);
    WriteField(model, CONTEXT_WINDOW, tokens);
    written := Some(doc[i := Model(model.fields)]);
  }

  /** The window written, the same model is found again, and writing its limit completes the job. */
  lemma SyncInSteps(doc: seq<Item>, slug: string, window: string, percent: string, first: seq<Item>)
    requires SyncWindow(doc, slug, window) == Some(first)
    ensures |Matches(first, slug)| == 1
    ensures var i := Matches(first, slug)[0];
            && i < |first| && first[i].Model?
            && SyncLimits(doc, slug, window, percent)
               == Some(first[i := Model(Reordered(Assigned(first[i].fields, TOKEN_LIMIT, PercentToLimit(window, percent))))])
  {
    var i := Matches(doc, slug)[0];
    MatchesAre(doc, slug, i);
    var fs := SyncedWindow(doc[i].fields, window);
    SyncedWindowGet(doc[i].fields, window, SLUG);
    OnlyMatchUpdated(doc, slug, i, fs);
    var limited := Model(SyncedLimits(doc[i].fields, window, percent));
    assert first[i := limited] == doc[i := limited];
  }

  method SynchronizeLimits(doc: seq<Item>, slug: string, window: string, percent: string) returns (written: Option<seq<Item>>)
    requires Parsed(doc)
    ensures written == SyncLimits(doc, slug, window, percent)
  {
    var first := SynchronizeContextWindow(doc, slug, window);
    if first.None? { return None; }
    SyncInSteps(doc, slug, window, percent, first.value);
    var matches := Matches(first.value, slug);
    if |matches| != 1 { return None; }
    var i := matches[0];
    var model := new ModelObject(first.value[i].fields);
    WriteField(model, TOKEN_LIMIT, PercentToLimit(window, percent));
    written := Some(first.value[i := Model(model.fields)]);
  }

  // ---- Reading a document ----

  datatype ParseError =
    | BlankSlug | NoSuchModel | ManyModels | BadWindow | BadLimit | LimitWithoutWindow | LimitTooLarge
    | Incapable(why: string)

  datatype Imported = Imported(metadata: Record, window: Option<string>, percent: Option<string>)

  datatype ParseResult = Ok(value: Imported) | Error(error: ParseError)

  /** `validateModelCapabilities`: an error or none. */
  type CapabilityCheck = Record -> Option<string>

  function PositiveInteger(v: Json): Option<string> {
    match v
    case Integer(n) => if 0 < n <= MAX_SAFE_INTEGER then Some(Print(n)) else None
    case Str(s) =>
      var t := Trim(JavaScript, s);
      if t != "" && DigitCount(t) == |t| && 0 < Value(t) <= MAX_SAFE_INTEGER then Some(Print(Value(t))) else None
    case _ => None
  }

  function NotNull(v: Option<Json>): Option<Json> {
    if v == Some(Null) then None else v
  }

  const SUMMARIES := "supports_reasoning_summaries"
  const SUMMARY_PARAMETER := "supports_reasoning_summary_parameter"

  /** The summary parameter is filled in from the older field. */
  function WithSummary(metadata: Record): Record {
    match Get(metadata, SUMMARIES)
    case Some(Bool(b)) => if Get(metadata, SUMMARY_PARAMETER).None? then metadata + [Field(SUMMARY_PARAMETER, Bool(b))] else metadata
    case _ => metadata
  }

  function Finish(metadata: Record, window: Option<string>, percent: Option<string>, check: CapabilityCheck): ParseResult {
    match check(metadata)
    case Some(why) => Error(Incapable(why))
    case None => Ok(Imported(metadata, window, percent))
  }

  function ParseFields(metadata: Record, w: Option<Json>, l: Option<Json>, check: CapabilityCheck): ParseResult {
    var window := if w.Some? then PositiveInteger(w.value) else None;
    if w.Some? && window.None? then Error(BadWindow)
    else if l.None? then Finish(metadata, window, None, check)
    else
      var limit := PositiveInteger(l.value);
      if limit.None? then Error(BadLimit)
      else if window.None? then Error(LimitWithoutWindow)
      else
        var percent := LimitToPercent(window.value, limit.value);
        if percent.None? then Error(LimitTooLarge) else Finish(metadata, window, percent, check)
  }

  /** `parseModelMetadataDocument`; `percent` is its `autoCompactCalculationPercent`. */
  function Parse(doc: seq<Item>, slug: string, check: CapabilityCheck): ParseResult {
    if Trim(JavaScript, slug) == "" then Error(BlankSlug)
    else
      var m := Matches(doc, slug);
      if m == [] then Error(NoSuchModel)
      else if |m| > 1 then Error(ManyModels)
      else
        MatchesAre(doc, slug, m[0]);
        var fs := doc[m[0]].fields;
        ParseFields(WithSummary(Unmanaged(fs)), NotNull(Get(fs, CONTEXT_WINDOW)), NotNull(Get(fs, TOKEN_LIMIT)), check)
  }

  lemma ParseOnly(doc: seq<Item>, slug: string, i: nat, check: CapabilityCheck)
    requires OnlyMatch(doc, slug, i) && Trim(JavaScript, slug) != ""
    ensures var fs := doc[i].fields;
            Parse(doc, slug, check)
            == ParseFields(WithSummary(Unmanaged(fs)), NotNull(Get(fs, CONTEXT_WINDOW)), NotNull(Get(fs, TOKEN_LIMIT)), check)
  {
    MatchesAre(doc, slug, i);
  }
}
