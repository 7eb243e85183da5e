/** What writing, synchronising and reading a model.json document promise each other. */
module MetadataLaws {
  import opened Wrappers
  import opened Text
  import opened Decimal
  import opened TokenLimits
  import opened JsonRecords
  import opened MetadataDocument

  // ---- Windows and limits that were written ----

  function Numbered(value: Option<nat>): Option<Json> {
    match value
    case Some(n) => Some(Integer(n))
    case None => None
  }

  function Printed(value: Option<nat>): Option<string> {
    match value
    case Some(n) => Some(Print(n))
    case None => None
  }

  lemma PrintedWindow(n: nat)
    requires 0 < n <= MAX_U64
    ensures Window(Print(n)) == Some(n)
  {
    PrintValue(n);
    DigitsTight(Print(n));
    TrimTight(JavaScript, Print(n));
    assert Print(n)[..|Print(n)|] == Print(n);
  }

  /** The percentage shown for the limit of a form. */
  function ShownPercent(window: string, percent: string): Option<string> {
    match PercentToLimit(window, percent)
    case Some(limit) => Some(PrintPercent(Scaled(Window(window).value, limit)))
    case None => None
  }

  /** The limit of a form is shown as a percentage that gives the limit again. */
  lemma ShownPercentKeepsLimit(window: string, percent: string, tokens: nat)
    requires PercentToLimit(window, percent).Some? && Window(window) == Some(tokens)
    ensures var limit := PercentToLimit(window, percent).value;
            && LimitToPercent(Print(tokens), Print(limit)) == ShownPercent(window, percent)
            && ShownPercent(window, percent).Some?
            && PercentToLimit(Print(tokens), ShownPercent(window, percent).value) == Some(limit)
            && 0 < limit <= MAX_SAFE_INTEGER
  {
    var scaled := ScaledPercent(percent).value;
    var limit := PercentToLimit(window, percent).value;
    LimitIsShare(tokens, scaled);
    LimitStable(tokens, scaled);
    PrintedWindow(tokens);
    LimitToPercentOfNumber(Print(tokens), limit);
    PrintedPercentReadsBack(Scaled(tokens, limit));
  }

  lemma TrimmedWindow(window: string)
    ensures Window(Trim(JavaScript, window)) == Window(window)
    ensures SafeWindow(Trim(JavaScript, window)) == SafeWindow(window)
  {
    TrimTwice(JavaScript, window);
  }

  lemma LimitNeedsWindow(window: string, percent: string)
    requires Writable(window) && PercentToLimit(window, percent).Some?
    ensures SafeWindow(window).Some? && SafeWindow(window) == Window(window)
  {
    TrimmedWindow(window);
  }

  lemma ParseNumbers(metadata: Record, tokens: Option<nat>, limit: Option<nat>, percent: Option<string>, check: CapabilityCheck)
    requires tokens.Some? ==> 0 < tokens.value <= MAX_SAFE_INTEGER
    requires limit.Some? ==> tokens.Some? && 0 < limit.value <= MAX_SAFE_INTEGER
    requires percent == if limit.Some? then LimitToPercent(Print(tokens.value), Print(limit.value)) else None
    requires limit.Some? ==> percent.Some?
    ensures ParseFields(metadata, Numbered(tokens), Numbered(limit), check) == Finish(metadata, Printed(tokens), percent, check)
  {
  }

  /** Reading back a window and a limit that a form wrote, if its window can be written. */
  lemma ParseWritten(metadata: Record, window: string, percent: string, check: CapabilityCheck)
    requires PercentToLimit(window, percent).Some? ==> SafeWindow(window).Some?
    ensures ParseFields(metadata, Numbered(SafeWindow(window)), Numbered(PercentToLimit(window, percent)), check)
            == Finish(metadata, Printed(SafeWindow(window)), ShownPercent(window, percent), check)
  {
    if PercentToLimit(window, percent).Some? {
      ShownPercentKeepsLimit(window, percent, SafeWindow(window).value);
    }
    ParseNumbers(metadata, SafeWindow(window), PercentToLimit(window, percent), ShownPercent(window, percent), check);
  }

  lemma ParseUnwindowed(metadata: Record, window: string, percent: string, check: CapabilityCheck)
    requires PercentToLimit(window, percent).Some? && SafeWindow(window).None?
    ensures ParseFields(metadata, Numbered(SafeWindow(window)), Numbered(PercentToLimit(window, percent)), check)
            == Error(LimitWithoutWindow)
  {
    LimitIsShare(Window(window).value, ScaledPercent(percent).value);
  }

  // ---- Writing and reading back ----

  lemma SerializedGet(slug: string, metadata: Record, window: string, percent: string)
    ensures var fs := Serialized(slug, metadata, window, percent);
            && Get(fs, SLUG) == Some(Str(slug))
            && Get(fs, CONTEXT_WINDOW) == Numbered(SafeWindow(window))
            && Get(fs, TOKEN_LIMIT) == Numbered(PercentToLimit(window, percent))
            && Unmanaged(fs) == Unmanaged(metadata)
  {
    var a, b, c, d := [Field(SLUG, Str(slug))], NumberField(CONTEXT_WINDOW, SafeWindow(window)),
                      NumberField(TOKEN_LIMIT, PercentToLimit(window, percent)), Unmanaged(metadata);
    SerializedParts(a, b, c, d, SLUG);
    SerializedParts(a, b, c, d, CONTEXT_WINDOW);
    SerializedParts(a, b, c, d, TOKEN_LIMIT);
    GetUnmanaged(metadata, CONTEXT_WINDOW);
    GetUnmanaged(metadata, TOKEN_LIMIT);
    UnmanagedAppend(a + b + c, d);
    UnmanagedAppend(a + b, c);
    UnmanagedAppend(a, b);
    UnmanagedTwice(metadata);
    assert Unmanaged(a) == [] && Unmanaged(b) == [] && Unmanaged(c) == [];
  }

  lemma SerializedParts(a: Record, b: Record, c: Record, d: Record, key: string)
    ensures Get(a + b + c + d, key)
            == if Get(a, key).Some? then Get(a, key) else if Get(b, key).Some? then Get(b, key)
               else if Get(c, key).Some? then Get(c, key) else Get(d, key)
  {
    GetAppend(a + b + c, d, key);
    GetAppend(a + b, c, key);
    GetAppend(a, b, key);
  }

  lemma HalfLimit(n: nat)
    requires MAX_SAFE_INTEGER < n < 2 * MAX_SAFE_INTEGER
    ensures PercentToLimit(Print(n), "50%").Some? && SafeWindow(Print(n)).None?
  {
    PrintedWindow(n);
    WholePercent(50);
    PrintFifty();
  }

  lemma PrintFifty()
    ensures Print(50) + "%" == "50%"
  {
    assert Print(5) == "5" && Print(50) == "5" + "0";
  }

  /** A document that is written and cannot be read: half of a window beyond the exact integers. */
  lemma WrittenUnreadable(slug: string, metadata: Record, n: nat, check: CapabilityCheck)
    requires Trim(JavaScript, slug) != "" && MAX_SAFE_INTEGER < n < 2 * MAX_SAFE_INTEGER
    ensures Parse([Model(Serialized(slug, metadata, Print(n), "50%"))], slug, check) == Error(LimitWithoutWindow)
  {
    HalfLimit(n);
    WrittenIsRead(slug, metadata, Print(n), "50%", check);
  }

  /** A written document can be read back exactly when it does not hold a limit without a window, which
      happens when the window is beyond JavaScript's exact integers and the limit is not; and then the
      fields, the window and the limit come back. */
  lemma WrittenIsRead(slug: string, metadata: Record, window: string, percent: string, check: CapabilityCheck)
    requires Trim(JavaScript, slug) != ""
    ensures Parse([Model(Serialized(slug, metadata, window, percent))], slug, check)
            == if PercentToLimit(window, percent).Some? && SafeWindow(window).None? then Error(LimitWithoutWindow)
               else Finish(WithSummary(Unmanaged(metadata)), Printed(SafeWindow(window)), ShownPercent(window, percent), check)
  {
    SerializedGet(slug, metadata, window, percent);
    ParseOnly([Model(Serialized(slug, metadata, window, percent))], slug, 0, check);
    var meta := WithSummary(Unmanaged(metadata));
    if PercentToLimit(window, percent).Some? && SafeWindow(window).None? {
      ParseUnwindowed(meta, window, percent, check);
    } else {
      ParseWritten(meta, window, percent, check);
    }
  }

  lemma SummaryUnmanaged(metadata: Record)
    ensures Unmanaged(WithSummary(Unmanaged(metadata))) == WithSummary(Unmanaged(metadata))
  {
    var m := Unmanaged(metadata);
    UnmanagedTwice(metadata);
    if WithSummary(m) != m {
      var added := [WithSummary(m)[|m|]];
      UnmanagedAppend(m, added);
      assert added[1..] == [];
    }
  }

  /** The form filled from what was read gives the window and the limit again. */
  lemma FormRefilled(window: string, percent: string)
    requires PercentToLimit(window, percent).Some? ==> SafeWindow(window).Some?
    ensures var w, p := Printed(SafeWindow(window)).GetOr(""), ShownPercent(window, percent).GetOr("");
            SafeWindow(w) == SafeWindow(window) && PercentToLimit(w, p) == PercentToLimit(window, percent)
  {
    if SafeWindow(window).Some? {
      PrintedWindow(SafeWindow(window).value);
    }
    if PercentToLimit(window, percent).Some? {
      ShownPercentKeepsLimit(window, percent, SafeWindow(window).value);
    } else {
      NoPercent();
    }
  }

  lemma NoPercent()
    ensures ScaledPercent("") == None
  {
    TrimTight(JavaScript, "");
  }

  /** Writing a document, reading it and writing what was read gives the same document, up to the summary
      parameter that reading fills in. */
  lemma RewriteSame(slug: string, metadata: Record, window: string, percent: string, check: CapabilityCheck)
    requires Trim(JavaScript, slug) != ""
    requires Parse([Model(Serialized(slug, metadata, window, percent))], slug, check).Ok?
    ensures var read := Parse([Model(Serialized(slug, metadata, window, percent))], slug, check).value;
            Serialized(slug, read.metadata, read.window.GetOr(""), read.percent.GetOr(""))
            == Serialized(slug, WithSummary(Unmanaged(metadata)), window, percent)
  {
    WrittenIsRead(slug, metadata, window, percent, check);
    SummaryUnmanaged(metadata);
    FormRefilled(window, percent);
  }

  // ---- Synchronising and reading back ----

  lemma SyncedGet(fs: Record, window: string, percent: string, k: string)
    ensures Get(SyncedLimits(fs, window, percent), k)
            == if k == TOKEN_LIMIT then Get(Assigned(fs, TOKEN_LIMIT, PercentToLimit(window, percent)), k)
               else if k == CONTEXT_WINDOW then Get(Assigned(fs, CONTEXT_WINDOW, SafeWindow(Trim(JavaScript, window))), k)
               else Get(fs, k)
  {
    var first, limit := SyncedWindow(fs, window), PercentToLimit(window, percent);
    ReorderedKeeps(Assigned(first, TOKEN_LIMIT, limit), k);
    AssignedGet(first, TOKEN_LIMIT, limit, k);
    AssignedGet(fs, TOKEN_LIMIT, limit, k);
    if k == CONTEXT_WINDOW {
      ReorderedKeeps(Assigned(fs, CONTEXT_WINDOW, SafeWindow(Trim(JavaScript, window))), k);
    } else {
      SyncedWindowGet(fs, window, k);
    }
  }

  lemma UnmanagedAssigned(fs: Record, key: string, value: Option<nat>)
    requires Managed(key)
    ensures Unmanaged(Assigned(fs, key, value)) == Unmanaged(fs)
  {
    match value {
      case Some(n) => UnmanagedPut(fs, key, Integer(n));
      case None => UnmanagedPut(fs, key, Null);
    }
  }

  lemma SyncedUnmanaged(fs: Record, window: string, percent: string)
    ensures Unmanaged(SyncedLimits(fs, window, percent)) == Unmanaged(fs)
  {
    var tokens, limit := SafeWindow(Trim(JavaScript, window)), PercentToLimit(window, percent);
    var first := SyncedWindow(fs, window);
    UnmanagedAssigned(fs, CONTEXT_WINDOW, tokens);
    UnmanagedReordered(Assigned(fs, CONTEXT_WINDOW, tokens));
    UnmanagedAssigned(first, TOKEN_LIMIT, limit);
    UnmanagedReordered(Assigned(first, TOKEN_LIMIT, limit));
  }

  /** Synchronising writes the two limits of one model: no other model, no other field and no other
      field's place changes. */
  lemma SyncFrame(doc: seq<Item>, slug: string, window: string, percent: string, i: nat)
    requires OnlyMatch(doc, slug, i) && Writable(window)
    ensures SyncLimits(doc, slug, window, percent).Some?
    ensures var written := SyncLimits(doc, slug, window, percent).value;
            && |written| == |doc| && OnlyMatch(written, slug, i)
            && (forall j :: 0 <= j < |doc| && j != i ==> written[j] == doc[j])
            && Unmanaged(written[i].fields) == Unmanaged(doc[i].fields)
            && (forall k :: k != CONTEXT_WINDOW && k != TOKEN_LIMIT ==> Get(written[i].fields, k) == Get(doc[i].fields, k))
  {
    MatchesAre(doc, slug, i);
    var fs := doc[i].fields;
    forall k | k != CONTEXT_WINDOW && k != TOKEN_LIMIT
      ensures Get(SyncedLimits(fs, window, percent), k) == Get(fs, k)
    {
      SyncedGet(fs, window, percent, k);
    }
    SyncedUnmanaged(fs, window, percent);
    OnlyMatchUpdated(doc, slug, i, SyncedLimits(fs, window, percent));
  }

  lemma SyncedLimitFields(fs: Record, window: string, percent: string)
    ensures NotNull(Get(SyncedLimits(fs, window, percent), CONTEXT_WINDOW)) == Numbered(SafeWindow(window))
    ensures NotNull(Get(SyncedLimits(fs, window, percent), TOKEN_LIMIT)) == Numbered(PercentToLimit(window, percent))
  {
    var tokens, limit := SafeWindow(Trim(JavaScript, window)), PercentToLimit(window, percent);
    TrimmedWindow(window);
    SyncedGet(fs, window, percent, CONTEXT_WINDOW);
    SyncedGet(fs, window, percent, TOKEN_LIMIT);
    AssignedGet(fs, CONTEXT_WINDOW, tokens, CONTEXT_WINDOW);
    AssignedGet(fs, TOKEN_LIMIT, limit, TOKEN_LIMIT);
  }

  /** A synchronised document reads back as the form says, whatever limits it held before: a limit is
      never left without its window, and a cleared field reads as none. */
  lemma SyncedIsRead(doc: seq<Item>, slug: string, window: string, percent: string, i: nat, check: CapabilityCheck)
    requires OnlyMatch(doc, slug, i) && Writable(window) && Trim(JavaScript, slug) != ""
    ensures SyncLimits(doc, slug, window, percent).Some?
    ensures Parse(SyncLimits(doc, slug, window, percent).value, slug, check)
            == Finish(WithSummary(Unmanaged(doc[i].fields)), Printed(SafeWindow(window)), ShownPercent(window, percent), check)
  {
    SyncFrame(doc, slug, window, percent, i);
    MatchesAre(doc, slug, i);
    var fs := SyncedLimits(doc[i].fields, window, percent);
    ParseOnly(SyncLimits(doc, slug, window, percent).value, slug, i, check);
    SyncedLimitFields(doc[i].fields, window, percent);
    if PercentToLimit(window, percent).Some? { LimitNeedsWindow(window, percent); }
    ParseWritten(WithSummary(Unmanaged(fs)), window, percent, check);
  }

  lemma SyncedTwice(fs: Record, window: string, percent: string)
    ensures SyncedLimits(SyncedLimits(fs, window, percent), window, percent) == SyncedLimits(fs, window, percent)
  {
    var again := SyncedLimits(fs, window, percent);
    SyncedSame(fs, again, window, percent);
    SyncedUnmanaged(fs, window, percent);
    SyncedUnmanaged(again, window, percent);
    SyncedParts(again, window, percent);
    SyncedParts(fs, window, percent);
  }

  /** A synchronised record is its own reordering. */
  lemma SyncedParts(fs: Record, window: string, percent: string)
    ensures var s := SyncedLimits(fs, window, percent); Reordered(s) == s
  {
    var first := Assigned(SyncedWindow(fs, window), TOKEN_LIMIT, PercentToLimit(window, percent));
    ReorderedKeeps(first, SLUG);
    ReorderedKeeps(first, CONTEXT_WINDOW);
    ReorderedKeeps(first, TOKEN_LIMIT);
    UnmanagedReordered(first);
  }

  lemma SyncedSame(fs: Record, again: Record, window: string, percent: string)
    requires again == SyncedLimits(fs, window, percent)
    ensures forall k :: Managed(k) ==> Get(SyncedLimits(again, window, percent), k) == Get(again, k)
  {
    var tokens, limit := SafeWindow(Trim(JavaScript, window)), PercentToLimit(window, percent);
    forall k | Managed(k) ensures Get(SyncedLimits(again, window, percent), k) == Get(again, k) {
      SyncedGet(again, window, percent, k);
      SyncedGet(fs, window, percent, k);
      AssignedGet(again, TOKEN_LIMIT, limit, k);
      AssignedGet(fs, TOKEN_LIMIT, limit, k);
      AssignedGet(again, CONTEXT_WINDOW, tokens, k);
      AssignedGet(fs, CONTEXT_WINDOW, tokens, k);
    }
  }

  /** Synchronising twice is synchronising once. */
  lemma SyncIdempotent(doc: seq<Item>, slug: string, window: string, percent: string)
    requires SyncLimits(doc, slug, window, percent).Some?
    ensures var written := SyncLimits(doc, slug, window, percent).value;
            SyncLimits(written, slug, window, percent) == Some(written)
  {
    var i := Matches(doc, slug)[0];
    MatchesAre(doc, slug, i);
    SyncFrame(doc, slug, window, percent, i);
    var written := SyncLimits(doc, slug, window, percent).value;
    MatchesAre(written, slug, i);
    SyncedTwice(doc[i].fields, window, percent);
    assert written[i := written[i]] == written;
  }
}
