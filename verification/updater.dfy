/** `RatesUpdater.run_update` (valutatrade_hub/parser_service/updater.py): query
    the clients in order, merge their pairs, record history, write both. */
module Updater {
  import opened Json
  import opened Errors
  import opened Text
  import opened Store
  import opened Storage
  import opened ApiClients

  /** One client of the run: its class name and what its `fetch_rates` did. */
  datatype ClientRun = ClientRun(name: string, fetched: Result<Pairs>)

  /** The summary `run_update` returns. */
  datatype RefreshSummary = RefreshSummary(total: nat, lastRefresh: string)

  /** What the loop has built so far: `merged_pairs` and `history_records`. */
  datatype Merge = Merge(pairs: map<string, Json>, history: seq<HistoryRecord>)

  /** The history record of one fetched entry, or `None` when building it
      raises: `pair.split("_", 1)[1]` raises `IndexError` for a key without
      `_`, and `obj.get` raises `AttributeError` for a non-dict. */
  function RecordFor(pair: string, obj: Json, ts: string, client: string): (r: Option<HistoryRecord>)
    ensures r.Some? <==> '_' in pair && obj.JObj?
    ensures r.Some? ==> pair == r.value.fromCurrency + "_" + r.value.toCurrency && '_' !in r.value.fromCurrency
    ensures r.Some? ==> r.value.id == pair + "_" + ts && r.value.client == client
  {
    if '_' !in pair || !obj.JObj? then None
    else
      var parts := SplitFirst(pair, '_');
      Some(HistoryRecord(pair + "_" + ts, parts.0, parts.1, Get(obj, "rate"), Get(obj, "updated_at"),
                         Get(obj, "source"), client))
  }

  /** The inner loop over the remaining entries of one client: each entry is
      merged first, then its record appended; an entry whose record cannot be
      built ends that client (the exception is caught per client). */
  function Feed(m: Merge, entries: Pairs, ts: string, client: string): (r: Merge)
    ensures m.pairs.Keys <= r.pairs.Keys <= m.pairs.Keys + set e | e in entries :: e.0
    ensures |m.history| <= |r.history| <= |m.history| + |entries| && r.history[..|m.history|] == m.history
    decreases |entries|
  {
    if entries == [] then m
    else
      var pair := entries[0].0;
      var merged := m.pairs[pair := entries[0].1];
      var rec := RecordFor(pair, entries[0].1, ts, client);
      if rec.None? then Merge(merged, m.history)
      else Feed(Merge(merged, m.history + [rec.value]), entries[1..], ts, client)
  }

  /** The outer loop over the remaining clients: a client whose fetch raised
      is skipped. */
  function RunAll(m: Merge, runs: seq<ClientRun>, ts: string): (r: Merge)
    ensures m.pairs.Keys <= r.pairs.Keys
    ensures |m.history| <= |r.history| && r.history[..|m.history|] == m.history
    ensures (forall i | 0 <= i < |runs| :: runs[i].fetched.Err?) ==> r == m
    decreases |runs|
  {
    if runs == [] then m
    else
      var next := if runs[0].fetched.Ok? then Feed(m, runs[0].fetched.value, ts, runs[0].name) else m;
      RunAll(next, runs[1..], ts)
  }

  class RatesUpdater {
    const storage: RatesStorage

    constructor(storage: RatesStorage)
      ensures this.storage == storage
    {
      this.storage := storage;
    }

    /** `run_update()`, with the clients' results, the run's own clock reading
        `ts` and the storage's clock reading `storedAt` as inputs. The
        snapshot is replaced by the merged pairs (empty when every client
        failed), then the records are appended to the history. */
    method RunUpdate(runs: seq<ClientRun>, ts: string, storedAt: string) returns (r: RefreshSummary)
      modifies storage.db
      ensures var m := RunAll(Merge(map[], []), runs, ts);
        && storage.db.rates == RatesDoc(m.pairs, Some(storedAt))
        && storage.db.history == old(storage.db.history) + m.history
        && r == RefreshSummary(|m.pairs|, ts)
      ensures storage.db.users == old(storage.db.users) && storage.db.portfolios == old(storage.db.portfolios)
    {
      var merged: map<string, Json> := map[];
      var records: seq<HistoryRecord> := [];
      var k := 0;
      while k < |runs|
        invariant 0 <= k <= |runs|
        invariant RunAll(Merge(merged, records), runs[k..], ts) == RunAll(Merge(map[], []), runs, ts)
      {
        assert runs[k..][1..] == runs[k + 1..];
        var run := runs[k];
        if run.fetched.Ok? {
          var data := run.fetched.value;
          ghost var start := Merge(merged, records);
          var j := 0;
          while j < |data|
            invariant 0 <= j <= |data|
            invariant Feed(Merge(merged, records), data[j..], ts, run.name) == Feed(start, data, ts, run.name)
          {
            assert data[j..][1..] == data[j + 1..];
            var pair := data[j].0;
            merged := merged[pair := data[j].1];
            var rec := RecordFor(pair, data[j].1, ts, run.name);
            if rec.None? {
              break;
            }
            records := records + [rec.value];
            j := j + 1;
          }
        }
        k := k + 1;
      }
      assert runs[|runs|..] == [];
      storage.WriteSnapshot(merged, storedAt);
      storage.AppendHistory(records);
      return RefreshSummary(|merged|, ts);
    }
  }

  // ---------------------------------------------------------------------
  // Reference definitions

  /** The entries of one client that reach `merged_pairs`: all of them up to
      and including the first whose record cannot be built. */
  function Contributed(entries: Pairs, ts: string, client: string): Pairs
    decreases |entries|
  {
    if entries == [] then []
    else if RecordFor(entries[0].0, entries[0].1, ts, client).None? then [entries[0]]
    else [entries[0]] + Contributed(entries[1..], ts, client)
  }

  /** The history records of one client: one per entry before the first
      whose record cannot be built. */
  function Recorded(entries: Pairs, ts: string, client: string): seq<HistoryRecord>
    decreases |entries|
  {
    if entries == [] then []
    else
      var rec := RecordFor(entries[0].0, entries[0].1, ts, client);
      if rec.None? then [] else [rec.value] + Recorded(entries[1..], ts, client)
  }

  /** All merged entries of a run, client after client, failed clients
      contributing nothing. */
  function AllContributed(runs: seq<ClientRun>, ts: string): Pairs
    decreases |runs|
  {
    if runs == [] then []
    else (if runs[0].fetched.Ok? then Contributed(runs[0].fetched.value, ts, runs[0].name) else [])
         + AllContributed(runs[1..], ts)
  }

  /** All history records of a run, client after client. */
  function AllRecorded(runs: seq<ClientRun>, ts: string): seq<HistoryRecord>
    decreases |runs|
  {
    if runs == [] then []
    else (if runs[0].fetched.Ok? then Recorded(runs[0].fetched.value, ts, runs[0].name) else [])
         + AllRecorded(runs[1..], ts)
  }

  /** The value the last entry for `pair` carries, if any. */
  function LastValue(entries: Pairs, pair: string): Option<Json>
    decreases |entries|
  {
    if entries == [] then None
    else if entries[|entries| - 1].0 == pair then Some(entries[|entries| - 1].1)
    else LastValue(entries[..|entries| - 1], pair)
  }

  /** Dict assignment of each entry in turn. */
  function Overlay(p: map<string, Json>, entries: Pairs): map<string, Json>
    decreases |entries|
  {
    if entries == [] then p else Overlay(p[entries[0].0 := entries[0].1], entries[1..])
  }

  // ---------------------------------------------------------------------
  // Properties

  /** Overlaying a concatenation overlays its parts in turn. */
  lemma {:induction false} OverlayAppend(p: map<string, Json>, e: Pairs, f: Pairs)
    ensures Overlay(p, e + f) == Overlay(Overlay(p, e), f)
    decreases |e|
  {
    if e != [] {
      assert (e + f)[1..] == e[1..] + f;
      OverlayAppend(p[e[0].0 := e[0].1], e[1..], f);
    } else {
      assert e + f == f;
    }
  }

  /** After the entries are assigned in order, a key holds the value of its
      last entry, or its old value when no entry names it. */
  lemma {:induction false} OverlayLastWins(p: map<string, Json>, e: Pairs, pair: string)
    ensures pair in Overlay(p, e) <==> pair in p || LastValue(e, pair).Some?
    ensures LastValue(e, pair).Some? ==> Overlay(p, e)[pair] == LastValue(e, pair).value
    ensures LastValue(e, pair).None? && pair in p ==> Overlay(p, e)[pair] == p[pair]
    decreases |e|
  {
    if e != [] {
      var init := e[..|e| - 1];
      var last := e[|e| - 1];
      assert e == init + [last];
      OverlayAppend(p, init, [last]);
      var q := Overlay(p, init);
      assert Overlay(q, [last]) == Overlay(q[last.0 := last.1], []);
      assert Overlay(p, e) == q[last.0 := last.1];
      OverlayLastWins(p, init, pair);
    }
  }

  /** One client's loop merges its contributed entries and appends its records. */
  lemma {:induction false} FeedIsOverlay(m: Merge, entries: Pairs, ts: string, client: string)
    ensures Feed(m, entries, ts, client) ==
      Merge(Overlay(m.pairs, Contributed(entries, ts, client)), m.history + Recorded(entries, ts, client))
    decreases |entries|
  {
    if entries != [] {
      var rec := RecordFor(entries[0].0, entries[0].1, ts, client);
      if rec.None? {
        assert m.history + [] == m.history;
      } else {
        var m' := Merge(m.pairs[entries[0].0 := entries[0].1], m.history + [rec.value]);
        FeedIsOverlay(m', entries[1..], ts, client);
        assert m.history + Recorded(entries, ts, client) == m'.history + Recorded(entries[1..], ts, client);
      }
    } else {
      assert m.history + [] == m.history;
    }
  }

  /** The whole run merges every contributed entry in client order and
      appends every record in client order. */
  lemma {:induction false} RunAllIsOverlay(m: Merge, runs: seq<ClientRun>, ts: string)
    ensures RunAll(m, runs, ts) ==
      Merge(Overlay(m.pairs, AllContributed(runs, ts)), m.history + AllRecorded(runs, ts))
    decreases |runs|
  {
    if runs == [] {
      assert m.history + [] == m.history;
    } else {
      var c := FirstContributed(runs, ts);
      var h := FirstRecorded(runs, ts);
      var next := Merge(Overlay(m.pairs, c), m.history + h);
      var rest := AllContributed(runs[1..], ts);
      var later := AllRecorded(runs[1..], ts);
      FirstClientStep(m, runs, ts);
      RunAllIsOverlay(next, runs[1..], ts);
      assert RunAll(m, runs, ts) == Merge(Overlay(Overlay(m.pairs, c), rest), m.history + h + later);
      OverlayAppend(m.pairs, c, rest);
      assert m.history + h + later == m.history + (h + later);
    }
  }

  /** What the first client of a run contributes. */
  function FirstContributed(runs: seq<ClientRun>, ts: string): Pairs
    requires runs != []
  {
    if runs[0].fetched.Ok? then Contributed(runs[0].fetched.value, ts, runs[0].name) else []
  }

  /** What the first client of a run records. */
  function FirstRecorded(runs: seq<ClientRun>, ts: string): seq<HistoryRecord>
    requires runs != []
  {
    if runs[0].fetched.Ok? then Recorded(runs[0].fetched.value, ts, runs[0].name) else []
  }

  lemma FirstClientStep(m: Merge, runs: seq<ClientRun>, ts: string)
    requires runs != []
    ensures RunAll(m, runs, ts) ==
      RunAll(Merge(Overlay(m.pairs, FirstContributed(runs, ts)), m.history + FirstRecorded(runs, ts)), runs[1..], ts)
    ensures AllContributed(runs, ts) == FirstContributed(runs, ts) + AllContributed(runs[1..], ts)
    ensures AllRecorded(runs, ts) == FirstRecorded(runs, ts) + AllRecorded(runs[1..], ts)
  {
    if runs[0].fetched.Ok? {
      FeedIsOverlay(m, runs[0].fetched.value, ts, runs[0].name);
    } else {
      assert m.history + [] == m.history;
    }
  }

  /** Last writer wins: after a run, the snapshot holds exactly the pairs some
      successful client returned, each with the value from the last client
      that returned it. */
  lemma LastWriterWins(runs: seq<ClientRun>, ts: string, pair: string)
    ensures var m := RunAll(Merge(map[], []), runs, ts);
      && (pair in m.pairs <==> LastValue(AllContributed(runs, ts), pair).Some?)
      && (pair in m.pairs ==> m.pairs[pair] == LastValue(AllContributed(runs, ts), pair).value)
  {
    RunAllIsOverlay(Merge(map[], []), runs, ts);
    OverlayLastWins(map[], AllContributed(runs, ts), pair);
  }

  /** Every pair of the snapshot after a run holds the value the last client
      returning it gave. */
  lemma RefreshedPairs(runs: seq<ClientRun>, ts: string)
    ensures var m := RunAll(Merge(map[], []), runs, ts);
      forall pair | pair in m.pairs :: LastValue(AllContributed(runs, ts), pair) == Some(m.pairs[pair])
  {
    var m := RunAll(Merge(map[], []), runs, ts);
    forall pair | pair in m.pairs
      ensures LastValue(AllContributed(runs, ts), pair) == Some(m.pairs[pair])
    {
      LastWriterWins(runs, ts, pair);
    }
  }

  /** The history receives the records of every successful client, in order. */
  lemma HistoryOfRun(runs: seq<ClientRun>, ts: string)
    ensures RunAll(Merge(map[], []), runs, ts).history == AllRecorded(runs, ts)
  {
    RunAllIsOverlay(Merge(map[], []), runs, ts);
    assert [] + AllRecorded(runs, ts) == AllRecorded(runs, ts);
  }

  /** When every client failed, the snapshot is empty and no record is added. */
  lemma {:induction false} AllFailedEmptiesSnapshot(m: Merge, runs: seq<ClientRun>, ts: string)
    requires forall i | 0 <= i < |runs| :: runs[i].fetched.Err?
    ensures RunAll(m, runs, ts) == m
    decreases |runs|
  {
    if runs != [] {
      AllFailedEmptiesSnapshot(m, runs[1..], ts);
    }
  }

  /** Every record names its pair: `from` is the part of the key before the
      first `_`, `to` the part after it, and the id is the key followed by
      the run's timestamp. */
  lemma {:induction false} RecordsSplitPairs(entries: Pairs, ts: string, client: string)
    ensures forall r | r in Recorded(entries, ts, client) ::
      '_' !in r.fromCurrency && r.id == r.fromCurrency + "_" + r.toCurrency + "_" + ts && r.client == client
    decreases |entries|
  {
    if entries != [] {
      RecordsSplitPairs(entries[1..], ts, client);
    }
  }

  /** Entries whose keys contain `_` and whose values are dicts. */
  predicate WellFormedEntries(entries: Pairs) {
    forall i | 0 <= i < |entries| :: '_' in entries[i].0 && entries[i].1.JObj?
  }

  /** A client whose entries are all well formed gets every entry merged and
      exactly one record per entry. */
  lemma {:induction false} WellFormedClientRecordsAll(entries: Pairs, ts: string, client: string)
    requires WellFormedEntries(entries)
    ensures Contributed(entries, ts, client) == entries
    ensures |Recorded(entries, ts, client)| == |entries|
    decreases |entries|
  {
    if entries != [] {
      assert WellFormedEntries(entries[1..]) by {
        forall i | 0 <= i < |entries[1..]|
          ensures '_' in entries[1..][i].0 && entries[1..][i].1.JObj?
        {
          assert entries[1..][i] == entries[i + 1];
        }
      }
      WellFormedClientRecordsAll(entries[1..], ts, client);
    }
  }

  /** Overlaying `e` onto an empty map yields at most `|e|` keys. */
  lemma {:induction false} OverlaySize(p: map<string, Json>, e: Pairs)
    ensures |Overlay(p, e).Keys| <= |p.Keys| + |e|
    decreases |e|
  {
    if e != [] {
      var p' := p[e[0].0 := e[0].1];
      assert p'.Keys == p.Keys + {e[0].0};
      OverlaySize(p', e[1..]);
    }
  }

  /** With well-formed clients, the history gains one record per fetched
      entry, overwritten ones included, so it gains at least as many records
      as the snapshot has pairs. */
  lemma {:induction false} HistoryCoversSnapshot(runs: seq<ClientRun>, ts: string)
    requires forall i | 0 <= i < |runs| :: runs[i].fetched.Ok? ==> WellFormedEntries(runs[i].fetched.value)
    ensures |AllRecorded(runs, ts)| == |AllContributed(runs, ts)|
    ensures |RunAll(Merge(map[], []), runs, ts).pairs| <= |RunAll(Merge(map[], []), runs, ts).history|
    decreases |runs|
  {
    RunAllIsOverlay(Merge(map[], []), runs, ts);
    OverlaySize(map[], AllContributed(runs, ts));
    AllRecordedCount(runs, ts);
    assert [] + AllRecorded(runs, ts) == AllRecorded(runs, ts);
  }

  lemma {:induction false} AllRecordedCount(runs: seq<ClientRun>, ts: string)
    requires forall i | 0 <= i < |runs| :: runs[i].fetched.Ok? ==> WellFormedEntries(runs[i].fetched.value)
    ensures |AllRecorded(runs, ts)| == |AllContributed(runs, ts)|
    decreases |runs|
  {
    if runs != [] {
      if runs[0].fetched.Ok? {
        WellFormedClientRecordsAll(runs[0].fetched.value, ts, runs[0].name);
      }
      AllRecordedCount(runs[1..], ts);
    }
  }
}
