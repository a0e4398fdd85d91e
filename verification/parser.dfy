/**
 The streaming batcher of `parse_json_in_batches`: it walks the `matches` items
 of the feed, skips entries without a `cpe23Uri`, logs and skips names that do
 not parse, builds one record per remaining entry and hands them out in batches
 of `batch_size`, flushing the last partial batch at the end of the feed.
 The ijson/aiofiles stream is modelled as a finite sequence of entries.
 */
module Parser {
  import opened Wrappers
  import opened CpeName
  import opened Records

  /** The batch size the source uses when the caller gives none. */
  const DefaultBatchSize: int := 2000

  /** One item of the feed's `matches` array; only `cpe23Uri` is read. */
  datatype Entry = Entry(cpe23Uri: Option<string>)

  /** The items the stream delivers, and whether reading the stream fails
      after them (a malformed document, a read error). */
  datatype Feed = Feed(matches: seq<Entry>, failsAfter: bool)

  /** What happens to a single entry. */
  datatype EntryResult =
    | Skipped                 // no `cpe23Uri`, or an empty one
    | Unparsable(uri: string) // the name library raised; the URI is logged
    | Parsed(record: CpeRecord)

  /** What one run of the generator produces: the batches yielded in order,
      the URIs logged as unparsable, and whether it reached the end of the
      feed (and logged completion) rather than stopping on a stream error. */
  datatype Run = Run(batches: seq<seq<CpeRecord>>, logged: seq<string>, completed: bool)

  /** The handling of one entry: missing or empty names are skipped silently,
      names that fail to parse are logged, every other entry yields the record
      built from its parsed name. */
  function ProcessEntry(e: Entry, parse: string -> Option<Cpe>): (r: EntryResult)
    ensures r.Skipped? <==> e.cpe23Uri.None? || e.cpe23Uri.value == ""
    ensures r.Unparsable? <==> e.cpe23Uri.Some? && e.cpe23Uri.value != "" && parse(e.cpe23Uri.value).None?
    ensures r.Unparsable? ==> r.uri == e.cpe23Uri.value
    ensures r.Parsed? ==> e.cpe23Uri.Some? && parse(e.cpe23Uri.value).Some? && r.record == MakeRecord(parse(e.cpe23Uri.value).value)
  {
    match e.cpe23Uri
    case None => Skipped
    case Some(uri) =>
      if uri == "" then Skipped
      else
        match parse(uri)
        case None => Unparsable(uri)
        case Some(a) => Parsed(MakeRecord(a))
  }

  /** The records an entry contributes, in order. */
  function Emitted(e: Entry, parse: string -> Option<Cpe>): seq<CpeRecord>
  {
    match ProcessEntry(e, parse)
    case Parsed(r) => [r]
    case _ => []
  }

  /** The URIs an entry causes to be logged as unparsable. */
  function Complaint(e: Entry, parse: string -> Option<Cpe>): seq<string>
  {
    match ProcessEntry(e, parse)
    case Unparsable(uri) => [uri]
    case _ => []
  }

  /** All records of a sequence of entries, in input order. */
  function Accepted(m: seq<Entry>, parse: string -> Option<Cpe>): seq<CpeRecord>
  {
    if m == [] then [] else Emitted(m[0], parse) + Accepted(m[1..], parse)
  }

  /** All URIs logged as unparsable, in input order. */
  function Rejected(m: seq<Entry>, parse: string -> Option<Cpe>): seq<string>
  {
    if m == [] then [] else Complaint(m[0], parse) + Rejected(m[1..], parse)
  }

  /** The records of consecutive parts of the feed are concatenated: what an
      entry contributes does not depend on the entries around it. */
  lemma {:induction false} AcceptedAppend(a: seq<Entry>, b: seq<Entry>, parse: string -> Option<Cpe>)
    ensures Accepted(a + b, parse) == Accepted(a, parse) + Accepted(b, parse)
    decreases |a|
  {
    if a == [] {
      assert a + b == b;
    } else {
      assert (a + b)[0] == a[0];
      assert (a + b)[1..] == a[1..] + b;
      AcceptedAppend(a[1..], b, parse);
    }
  }

  /** The same for the log of unparsable names. */
  lemma {:induction false} RejectedAppend(a: seq<Entry>, b: seq<Entry>, parse: string -> Option<Cpe>)
    ensures Rejected(a + b, parse) == Rejected(a, parse) + Rejected(b, parse)
    decreases |a|
  {
    if a == [] {
      assert a + b == b;
    } else {
      assert (a + b)[0] == a[0];
      assert (a + b)[1..] == a[1..] + b;
      RejectedAppend(a[1..], b, parse);
    }
  }

  /** The contribution of a feed that ends with entry `e`. */
  lemma AcceptedSnoc(m: seq<Entry>, e: Entry, parse: string -> Option<Cpe>)
    ensures Accepted(m + [e], parse) == Accepted(m, parse) + Emitted(e, parse)
    ensures Rejected(m + [e], parse) == Rejected(m, parse) + Complaint(e, parse)
  {
    AcceptedAppend(m, [e], parse);
    RejectedAppend(m, [e], parse);
    assert Accepted([e], parse) == Emitted(e, parse) + Accepted([], parse);
    assert Rejected([e], parse) == Complaint(e, parse) + Rejected([], parse);
  }

  /** A skipped entry, wherever it sits, changes neither the records nor the
      log of the entries around it. */
  lemma SkippedEntryHasNoEffect(before: seq<Entry>, e: Entry, after: seq<Entry>, parse: string -> Option<Cpe>)
    requires e.cpe23Uri.None? || e.cpe23Uri.value == ""
    ensures Accepted(before + [e] + after, parse) == Accepted(before + after, parse)
    ensures Rejected(before + [e] + after, parse) == Rejected(before + after, parse)
  {
    assert Emitted(e, parse) == [] && Complaint(e, parse) == [];
    AcceptedSnoc(before, e, parse);
    calc {
      Accepted(before + [e] + after, parse);
    == { AcceptedAppend(before + [e], after, parse); }
      Accepted(before + [e], parse) + Accepted(after, parse);
    == { assert Accepted(before + [e], parse) == Accepted(before, parse); }
      Accepted(before, parse) + Accepted(after, parse);
    == { AcceptedAppend(before, after, parse); }
      Accepted(before + after, parse);
    }
    calc {
      Rejected(before + [e] + after, parse);
    == { RejectedAppend(before + [e], after, parse); }
      Rejected(before + [e], parse) + Rejected(after, parse);
    == { assert Rejected(before + [e], parse) == Rejected(before, parse); }
      Rejected(before, parse) + Rejected(after, parse);
    == { RejectedAppend(before, after, parse); }
      Rejected(before + after, parse);
    }
  }

  /** An unparsable entry adds exactly its URI to the log, at its place, and
      the records of the entries around it are still produced. */
  lemma UnparsableEntryIsLoggedAndSkipped(before: seq<Entry>, uri: string, after: seq<Entry>,
                                          parse: string -> Option<Cpe>)
    requires uri != "" && parse(uri).None?
    ensures Accepted(before + [Entry(Some(uri))] + after, parse) == Accepted(before, parse) + Accepted(after, parse)
    ensures Rejected(before + [Entry(Some(uri))] + after, parse)
            == Rejected(before, parse) + [uri] + Rejected(after, parse)
  {
    var e := Entry(Some(uri));
    assert Emitted(e, parse) == [] && Complaint(e, parse) == [uri];
    assert Accepted(before + [e], parse) == Accepted(before, parse) by {
      AcceptedSnoc(before, e, parse);
    }
    assert Rejected(before + [e], parse) == Rejected(before, parse) + [uri] by {
      AcceptedSnoc(before, e, parse);
    }
    AcceptedAppend(before + [e], after, parse);
    RejectedAppend(before + [e], after, parse);
  }

  /** Every record the parser produces is consistent with its key, and, when
      the name parser only returns well-formed names (as `ParseCpe` does), its
      attributes form a well-formed name. */
  lemma {:induction false} AcceptedConsistent(m: seq<Entry>, parse: string -> Option<Cpe>)
    ensures forall i :: 0 <= i < |Accepted(m, parse)| ==> Consistent(Accepted(m, parse)[i])
    ensures (forall u :: parse(u).Some? ==> Coherent(parse(u).value)) ==>
              forall i :: 0 <= i < |Accepted(m, parse)| ==>
                Coherent(Cpe(AttrsOf(Accepted(m, parse)[i]), Accepted(m, parse)[i].cpeId))
    decreases |m|
  {
    if m != [] {
      AcceptedConsistent(m[1..], parse);
      assert Accepted(m, parse) == Emitted(m[0], parse) + Accepted(m[1..], parse);
    }
  }

  /** Concatenation of batches. */
  function Flatten(batches: seq<seq<CpeRecord>>): seq<CpeRecord>
  {
    if batches == [] then [] else batches[0] + Flatten(batches[1..])
  }

  lemma {:induction false} FlattenAppend(batches: seq<seq<CpeRecord>>, b: seq<CpeRecord>)
    ensures Flatten(batches + [b]) == Flatten(batches) + b
    decreases |batches|
  {
    if batches == [] {
      assert [] + [b] == [b];
      assert Flatten([b]) == b + Flatten([]);
    } else {
      assert (batches + [b])[1..] == batches[1..] + [b];
      FlattenAppend(batches[1..], b);
    }
  }

  /** The size every yielded batch has except possibly the last: the source
      yields as soon as `len(batch) >= batch_size`, so a size below one makes
      every record its own batch. */
  function EffectiveBatchSize(batchSize: int): (n: nat)
    ensures n >= 1
    ensures batchSize >= 1 ==> n == batchSize
  {
    if batchSize < 1 then 1 else batchSize
  }

  /** The generator's local state between entries: the batches yielded so
      far, the batch being filled, and the URIs logged. */
  datatype Batcher = Batcher(batches: seq<seq<CpeRecord>>, batch: seq<CpeRecord>, logged: seq<string>)

  /** Appending an accepted record to the current batch, which is yielded
      and restarted once it reaches the batch size. */
  function Push(st: Batcher, r: CpeRecord, batchSize: int): (next: Batcher)
    ensures Flatten(next.batches) + next.batch == Flatten(st.batches) + st.batch + [r]
    ensures next.batches == st.batches || (next.batches == st.batches + [st.batch + [r]] && next.batch == [])
    ensures next.logged == st.logged
  {
    var batch := st.batch + [r];
    if |batch| >= batchSize then
      FlattenAppend(st.batches, batch);
      Batcher(st.batches + [batch], [], st.logged)
    else st.(batch := batch)
  }

  /** The current batch is yielded exactly when the record brings it to the
      batch size; otherwise the record just joins it. A batch size below one
      yields every record on its own. */
  lemma PushYieldsAtSize(st: Batcher, r: CpeRecord, batchSize: int)
    ensures var next := Push(st, r, batchSize);
            && (next.batches == st.batches + [st.batch + [r]] <==> |st.batch| + 1 >= batchSize)
            && (|st.batch| + 1 >= batchSize ==> next.batch == [])
            && (|st.batch| + 1 < batchSize ==> next.batches == st.batches && next.batch == st.batch + [r])
            && next.logged == st.logged
            && (batchSize < 1 ==> next == Batcher(st.batches + [st.batch + [r]], [], st.logged))
  {
    var next := Push(st, r, batchSize);
    if |st.batch| + 1 < batchSize {
      assert |st.batches + [st.batch + [r]]| != |st.batches|;
    }
  }

  /** The loop body for one entry: a skipped entry changes nothing, an
      unparsable one is logged, and a parsed one is pushed. */
  function Consume(st: Batcher, e: Entry, batchSize: int, parse: string -> Option<Cpe>): (next: Batcher)
    ensures Flatten(next.batches) + next.batch == Flatten(st.batches) + st.batch + Emitted(e, parse)
    ensures next.logged == st.logged + Complaint(e, parse)
  {
    match ProcessEntry(e, parse)
    case Skipped => st
    case Unparsable(uri) => st.(logged := st.logged + [uri])
    case Parsed(r) => Push(st, r, batchSize)
  }

  /** The state accounts for the records `accepted` and the log `rejected`:
      the yielded batches followed by the current one are `accepted`, the log
      is `rejected`, every yielded batch is full and the current one is not. */
  predicate Holds(st: Batcher, accepted: seq<CpeRecord>, rejected: seq<string>, size: nat)
  {
    && Flatten(st.batches) + st.batch == accepted
    && st.logged == rejected
    && |st.batch| < size
    && forall j :: 0 <= j < |st.batches| ==> |st.batches[j]| == size
  }

  /** The loop invariant after the entries `m`. */
  predicate Accounts(st: Batcher, m: seq<Entry>, size: nat, parse: string -> Option<Cpe>)
  {
    Holds(st, Accepted(m, parse), Rejected(m, parse), size)
  }

  /** Pushing a record keeps the state accounted for, with the record added. */
  lemma PushHolds(st: Batcher, accepted: seq<CpeRecord>, rejected: seq<string>, r: CpeRecord, batchSize: int)
    requires Holds(st, accepted, rejected, EffectiveBatchSize(batchSize))
    ensures Holds(Push(st, r, batchSize), accepted + [r], rejected, EffectiveBatchSize(batchSize))
  {
    var batch := st.batch + [r];
    assert Flatten(st.batches) + batch == accepted + [r];
    if |batch| >= batchSize {
      FlattenAppend(st.batches, batch);
      assert Flatten(st.batches + [batch]) + [] == accepted + [r];
    }
  }

  /** One loop iteration keeps the generator's state accounted for. */
  lemma ConsumeAccounts(st: Batcher, m: seq<Entry>, e: Entry, batchSize: int, parse: string -> Option<Cpe>)
    requires Accounts(st, m, EffectiveBatchSize(batchSize), parse)
    ensures Accounts(Consume(st, e, batchSize, parse), m + [e], EffectiveBatchSize(batchSize), parse)
  {
    AcceptedSnoc(m, e, parse);
    match ProcessEntry(e, parse)
    case Skipped =>
      assert Emitted(e, parse) == [] && Complaint(e, parse) == [];
    case Unparsable(uri) =>
      assert Emitted(e, parse) == [] && Complaint(e, parse) == [uri];
    case Parsed(r) =>
      assert Emitted(e, parse) == [r] && Complaint(e, parse) == [];
      PushHolds(st, Accepted(m, parse), Rejected(m, parse), r, batchSize);
  }

  /** `parse_json_in_batches(json_path, batch_size)`, with `parse` standing for
      the name library's constructor. Every yielded batch is non-empty and at
      most the batch size, and all but the last are full. When the stream ends
      normally the batches concatenate to exactly the accepted records in
      input order; when it fails, only full batches have been yielded, and the
      records of the unflushed partial batch (fewer than a batch) are lost
      without any error reaching the consumer. */
  method ParseJsonInBatches(feed: Feed, parse: string -> Option<Cpe>, batchSize: int := DefaultBatchSize) returns (run: Run)
    ensures forall i :: 0 <= i < |run.batches| ==>
              1 <= |run.batches[i]| <= EffectiveBatchSize(batchSize)
    ensures forall i :: 0 <= i < |run.batches| - 1 ==>
              |run.batches[i]| == EffectiveBatchSize(batchSize)
    ensures !feed.failsAfter ==> Flatten(run.batches) == Accepted(feed.matches, parse)
    ensures feed.failsAfter ==>
              && (forall i :: 0 <= i < |run.batches| ==> |run.batches[i]| == EffectiveBatchSize(batchSize))
              && Flatten(run.batches) <= Accepted(feed.matches, parse)
              && |Accepted(feed.matches, parse)| - |Flatten(run.batches)| < EffectiveBatchSize(batchSize)
    ensures run.logged == Rejected(feed.matches, parse)
    ensures run.completed <==> !feed.failsAfter
  {
    ghost var size := EffectiveBatchSize(batchSize);
    var st := Batcher([], [], []);
    var i := 0;
    while i < |feed.matches|
      invariant 0 <= i <= |feed.matches|
      invariant Accounts(st, feed.matches[..i], size, parse)
    {
      ConsumeAccounts(st, feed.matches[..i], feed.matches[i], batchSize, parse);
      assert feed.matches[..i + 1] == feed.matches[..i] + [feed.matches[i]];
      st := Consume(st, feed.matches[i], batchSize, parse);
      i := i + 1;
    }
    assert feed.matches[..i] == feed.matches;
    if feed.failsAfter {
      // The stream error is caught and logged; the partial batch is dropped.
      return Run(st.batches, st.logged, false);
    }
    var batches := st.batches;
    if |st.batch| > 0 {
      FlattenAppend(st.batches, st.batch);
      batches := batches + [st.batch];
    }
    return Run(batches, st.logged, true);
  }

  /** A feed of one parsable name followed by an entry with an empty name
      yields exactly the record of that name. */
  lemma NameThenEmpty(s: string, c: Cpe, parse: string -> Option<Cpe>)
    requires s != "" && parse(s) == Some(c)
    ensures Accepted([Entry(Some(s)), Entry(Some(""))], parse) == [MakeRecord(c)]
  {
    var m := [Entry(Some(s)), Entry(Some(""))];
    assert Accepted(m[1..], parse) == Emitted(m[1], parse) + Accepted([], parse);
  }

  /** The worked example of a two-entry feed with the formatted-string parser:
      an entry holding the formatted string of an application name (vendor
      `acme`, product `widget`, version `1.0`, everything else ANY) and an
      entry with an empty name give a single software record, keyed by the
      name's URI binding. */
  lemma TwoEntryFeed()
    ensures var m := [Entry(Some(FormatFs(Widget))), Entry(Some(""))];
            && |Accepted(m, ParseCpe)| == 1
            && Accepted(m, ParseCpe)[0].cpeType == Software
            && Accepted(m, ParseCpe)[0].cpeId == UriBinding(Widget)
            && AttrsOf(Accepted(m, ParseCpe)[0]) == Widget
  {
    WidgetIsWellFormed();
    FormatParse(Widget);
    assert |FormatFs(Widget)| > 0;
    NameThenEmpty(FormatFs(Widget), Cpe(Widget, UriBinding(Widget)), ParseCpe);
  }
}
