/** The firmware log: entries recording which radio-unit and baseband
    versions a node runs, with listing, logging, lookup, update, deletion,
    per-node history and validation. The database table is a sequence of
    entries in insertion order; times are whole seconds. */
module Firmware {
  import opened Wrappers
  import Seqs

  /** One row of the `firmware_log` table. `isValid` is a stored flag that
      defaults to true; nothing in the router ever clears it. */
  datatype LogEntry = LogEntry(
    id: nat,
    nodeId: string,
    ru: Option<string>,
    bb: Option<string>,
    date: Option<int>,
    logged: int,
    isValid: bool,
    notes: Option<string>)

  /** The body of a new log entry. */
  datatype Submission = Submission(nodeId: string, ru: Option<string>, bb: Option<string>, date: Option<int>, notes: Option<string>)

  /** The body of an update: `None` means "not supplied". */
  datatype Patch = Patch(ru: Option<string>, bb: Option<string>, date: Option<int>, notes: Option<string>)

  /** The 404 answers of the router. */
  datatype Error = EntryNotFound | NoHistory(nodeId: string)

  predicate HasId(store: seq<LogEntry>, id: nat) {
    exists k :: 0 <= k < |store| && store[k].id == id
  }

  // ----- Listing -----

  /** `if node_id:` filters only on a non-empty node id. */
  predicate Filtering(node: Option<string>) {
    node.Some? && node.value != []
  }

  function Selected(store: seq<LogEntry>, node: Option<string>): (r: seq<LogEntry>)
    ensures Filtering(node) ==> forall e :: e in r <==> e in store && e.nodeId == node.value
    ensures Filtering(node) ==> forall e :: multiset(r)[e] == if e.nodeId == node.value then multiset(store)[e] else 0
    ensures !Filtering(node) ==> r == store
  {
    if Filtering(node) then Seqs.Filter(store, (e: LogEntry) => e.nodeId == node.value) else store
  }

  /** `query.offset(skip).limit(limit)`. */
  function Page<T>(s: seq<T>, skip: nat, limit: nat): (r: seq<T>)
    ensures skip >= |s| ==> r == []
    ensures skip < |s| ==> |r| == (if limit < |s| - skip then limit else |s| - skip) && r == s[skip..skip + |r|]
  {
    if skip >= |s| then [] else Seqs.Take(s[skip..], limit)
  }

  datatype Listing = Listing(entries: seq<LogEntry>, total: nat, skip: nat, limit: nat)

  function List(store: seq<LogEntry>, node: Option<string>, skip: nat, limit: nat): (r: Listing)
    ensures r.total == |r.entries| <= limit
    ensures r.skip == skip && r.limit == limit
    ensures Filtering(node) ==> forall e :: e in r.entries ==> e.nodeId == node.value
    ensures forall e :: e in r.entries ==> e in store
  {
    var page := Page(Selected(store, node), skip, limit);
    assert forall e :: e in page ==> e in Selected(store, node);
    Listing(page, |page|, skip, limit)
  }

  /** Two consecutive pages together are the page that spans both: paging
      neither skips nor repeats an entry. */
  lemma PagesJoin<T>(s: seq<T>, skip: nat, a: nat, b: nat)
    ensures Page(s, skip, a) + Page(s, skip + a, b) == Page(s, skip, a + b)
  {
    if skip < |s| && skip + a < |s| {
      assert s[skip..skip + a] + s[skip + a..skip + a + |Page(s, skip + a, b)|]
          == s[skip..skip + a + |Page(s, skip + a, b)|];
    }
  }

  // ----- Logging a new entry -----

  /** The id the table's auto-increment hands out: one past the largest. */
  function NextId(store: seq<LogEntry>): (r: nat)
    ensures forall k :: 0 <= k < |store| ==> store[k].id < r
  {
    if store == [] then 1
    else
      var rest := NextId(store[1..]);
      assert forall k :: 1 <= k < |store| ==> store[k] == store[1..][k - 1];
      if store[0].id + 1 > rest then store[0].id + 1 else rest
  }

  /** Logging appends one entry with a fresh id, the submitted fields, the
      current time, and the flag at its default, valid. */
  function Log(store: seq<LogEntry>, sub: Submission, now: int): (r: seq<LogEntry>)
    ensures |r| == |store| + 1 && r[..|store|] == store
    ensures var e := r[|store|];
      && !HasId(store, e.id)
      && e.nodeId == sub.nodeId && e.ru == sub.ru && e.bb == sub.bb && e.date == sub.date && e.notes == sub.notes
      && e.logged == now && e.isValid
  {
    store + [LogEntry(NextId(store), sub.nodeId, sub.ru, sub.bb, sub.date, now, true, sub.notes)]
  }

  // ----- Lookup, update, deletion -----

  /** `filter(id == entry_id).first()`, or 404. */
  function Find(store: seq<LogEntry>, id: nat): (r: Result<nat, Error>)
    ensures r.Err? <==> !HasId(store, id)
    ensures r.Err? ==> r.error == EntryNotFound
    ensures r.Ok? ==> r.value < |store| && store[r.value].id == id
    ensures r.Ok? ==> forall k :: 0 <= k < r.value ==> store[k].id != id
  {
    if store == [] then Err(EntryNotFound)
    else if store[0].id == id then Ok(0)
    else
      match Find(store[1..], id)
      case Err(e) => Err(e)
      case Ok(k) => Ok(k + 1)
  }

  /** A field is overwritten exactly when the update supplies a value. */
  function ApplyPatch(e: LogEntry, p: Patch): (r: LogEntry)
    ensures r.id == e.id && r.nodeId == e.nodeId && r.logged == e.logged && r.isValid == e.isValid
    ensures r.ru == (if p.ru.Some? then p.ru else e.ru)
    ensures r.bb == (if p.bb.Some? then p.bb else e.bb)
    ensures r.date == (if p.date.Some? then p.date else e.date)
    ensures r.notes == (if p.notes.Some? then p.notes else e.notes)
  {
    var ru := if p.ru.Some? then p.ru else e.ru;
    var bb := if p.bb.Some? then p.bb else e.bb;
    var date := if p.date.Some? then p.date else e.date;
    var notes := if p.notes.Some? then p.notes else e.notes;
    e.(ru := ru, bb := bb, date := date, notes := notes)
  }

  /** Applying the same update twice is applying it once, and an update
      that supplies nothing changes nothing. */
  lemma PatchIdempotent(e: LogEntry, p: Patch)
    ensures ApplyPatch(ApplyPatch(e, p), p) == ApplyPatch(e, p)
    ensures ApplyPatch(e, Patch(None, None, None, None)) == e
  {
  }

  function Update(store: seq<LogEntry>, id: nat, p: Patch): (r: Result<seq<LogEntry>, Error>)
    ensures r.Err? <==> !HasId(store, id)
    ensures r.Ok? ==> |r.value| == |store|
    ensures r.Ok? ==> exists k :: 0 <= k < |store| && store[k].id == id && r.value == store[k := ApplyPatch(store[k], p)]
  {
    match Find(store, id)
    case Err(e) => Err(e)
    case Ok(k) => Ok(store[k := ApplyPatch(store[k], p)])
  }

  function Delete(store: seq<LogEntry>, id: nat): (r: Result<seq<LogEntry>, Error>)
    ensures r.Err? <==> !HasId(store, id)
    ensures r.Ok? ==> |r.value| == |store| - 1
    ensures r.Ok? ==> exists k :: 0 <= k < |store| && store[k].id == id && r.value == store[..k] + store[k + 1..]
  {
    match Find(store, id)
    case Err(e) => Err(e)
    case Ok(k) => Ok(store[..k] + store[k + 1..])
  }

  predicate UniqueIds(store: seq<LogEntry>) {
    forall a, b :: 0 <= a < b < |store| ==> store[a].id != store[b].id
  }

  /** With ids unique, as the primary key makes them, a deleted id is gone
      and every other entry survives. */
  lemma DeleteRemovesExactly(store: seq<LogEntry>, id: nat)
    requires UniqueIds(store)
    requires HasId(store, id)
    ensures Delete(store, id).Ok?
    ensures !HasId(Delete(store, id).value, id)
    ensures forall e :: e in store && e.id != id ==> e in Delete(store, id).value
  {
    var k := Find(store, id).value;
    var r := Delete(store, id).value;
    assert r == store[..k] + store[k + 1..];
    forall j | 0 <= j < |r|
      ensures r[j].id != id
    {
      if j < k {
        assert r[j] == store[j];
      } else {
        assert r[j] == store[j + 1];
      }
    }
    forall e | e in store && e.id != id
      ensures e in r
    {
      var j :| 0 <= j < |store| && store[j] == e;
      if j < k {
        assert r[j] == e;
      } else {
        assert j > k && r[j - 1] == e;
      }
    }
  }

  // ----- Per-node history -----

  /** Newest first by log time. */
  predicate NewestFirst(s: seq<LogEntry>) {
    forall a, b :: 0 <= a < b < |s| ==> s[a].logged >= s[b].logged
  }

  function Insert(x: LogEntry, s: seq<LogEntry>): (r: seq<LogEntry>)
    requires NewestFirst(s)
    ensures NewestFirst(r)
    ensures multiset(r) == multiset(s) + multiset{x}
    ensures forall i :: 0 <= i < |r| ==> r[i] == x || r[i] in s
  {
    if s == [] then [x]
    else if x.logged >= s[0].logged then [x] + s
    else
      var rest := Insert(x, s[1..]);
      InsertBelowHead(x, s, rest);
      [s[0]] + rest
  }

  /** The step of `Insert` that keeps the head: what the insertion into the
      tail promised carries over to the whole list. */
  lemma InsertBelowHead(x: LogEntry, s: seq<LogEntry>, rest: seq<LogEntry>)
    requires s != [] && NewestFirst(s) && x.logged < s[0].logged
    requires NewestFirst(rest) && multiset(rest) == multiset(s[1..]) + multiset{x}
    requires forall i :: 0 <= i < |rest| ==> rest[i] == x || rest[i] in s[1..]
    ensures NewestFirst([s[0]] + rest)
    ensures multiset([s[0]] + rest) == multiset(s) + multiset{x}
    ensures forall i :: 0 <= i < |[s[0]] + rest| ==> ([s[0]] + rest)[i] == x || ([s[0]] + rest)[i] in s
  {
    assert s == [s[0]] + s[1..];
    HeadIsNewest(s);
    assert forall i :: 0 <= i < |rest| ==> rest[i].logged <= s[0].logged;
    NewestFirstCons(s[0], rest);
    Seqs.ConsInsert(s[0], x, s[1..], rest);
  }

  lemma HeadIsNewest(s: seq<LogEntry>)
    requires s != [] && NewestFirst(s)
    ensures forall y :: y in s[1..] ==> y.logged <= s[0].logged
  {
    forall y | y in s[1..] ensures y.logged <= s[0].logged {
      var j :| 0 <= j < |s| - 1 && s[1..][j] == y;
      assert s[j + 1] == y;
    }
  }

  lemma NewestFirstCons(h: LogEntry, s: seq<LogEntry>)
    requires NewestFirst(s)
    requires forall i :: 0 <= i < |s| ==> s[i].logged <= h.logged
    ensures NewestFirst([h] + s)
  {
    var r := [h] + s;
    forall a, b | 0 <= a < b < |r| ensures r[a].logged >= r[b].logged {
      assert r[b] == s[b - 1];
      if a > 0 {
        assert r[a] == s[a - 1];
      }
    }
  }

  /** `order_by(log_timestamp.desc())`; the order among equal times is one
      admissible choice, the query does not fix it. */
  function SortNewestFirst(s: seq<LogEntry>): (r: seq<LogEntry>)
    ensures NewestFirst(r)
    ensures multiset(r) == multiset(s)
    ensures |r| == |s|
  {
    if s == [] then []
    else
      assert s == [s[0]] + s[1..];
      Insert(s[0], SortNewestFirst(s[1..]))
  }

  /** A node's entries, newest first. */
  function NodeEntries(store: seq<LogEntry>, node: string): (r: seq<LogEntry>)
    ensures NewestFirst(r)
    ensures forall e :: e in r <==> e in store && e.nodeId == node
    ensures forall e :: multiset(r)[e] == if e.nodeId == node then multiset(store)[e] else 0
  {
    var mine := Seqs.Filter(store, (e: LogEntry) => e.nodeId == node);
    var r := SortNewestFirst(mine);
    assert forall e :: e in r <==> e in mine by {
      forall e
        ensures e in r <==> e in mine
      {
        assert e in r <==> e in multiset(r);
      }
    }
    r
  }

  datatype Current = Current(ru: Option<string>, bb: Option<string>, date: Option<int>)

  /** The current firmware: the first entry flagged valid, newest first. */
  function CurrentFirmware(history: seq<LogEntry>): (r: Option<Current>)
    ensures r.None? <==> forall k :: 0 <= k < |history| ==> !history[k].isValid
    ensures r.Some? ==> exists k :: (0 <= k < |history| && history[k].isValid
      && r.value == Current(history[k].ru, history[k].bb, history[k].date)
      && forall j :: 0 <= j < k ==> !history[j].isValid)
  {
    if history == [] then None
    else if history[0].isValid then Some(Current(history[0].ru, history[0].bb, history[0].date))
    else
      var rest := CurrentFirmware(history[1..]);
      assert forall k :: 1 <= k < |history| ==> history[k] == history[1..][k - 1];
      if rest.Some? then
        ghost var k :| 0 <= k < |history[1..]| && history[1..][k].isValid
          && rest.value == Current(history[1..][k].ru, history[1..][k].bb, history[1..][k].date)
          && forall j :: 0 <= j < k ==> !history[1..][j].isValid;
        assert history[k + 1] == history[1..][k];
        rest
      else rest
  }

  datatype HistoryView = HistoryView(nodeId: string, current: Option<Current>, history: seq<LogEntry>, total: nat)

  /** A node's history, or 404 when it has no entries at all. */
  function History(store: seq<LogEntry>, node: string): (r: Result<HistoryView, Error>)
    ensures r.Err? <==> forall e :: e in store ==> e.nodeId != node
    ensures r.Err? ==> r.error == NoHistory(node)
    ensures r.Ok? ==> r.value.nodeId == node && r.value.total == |r.value.history| > 0
    ensures r.Ok? ==> NewestFirst(r.value.history)
    ensures r.Ok? ==> forall e :: e in r.value.history <==> e in store && e.nodeId == node
    ensures r.Ok? ==> forall e :: multiset(r.value.history)[e] == if e.nodeId == node then multiset(store)[e] else 0
    ensures r.Ok? ==> r.value.current == CurrentFirmware(r.value.history)
  {
    var h := NodeEntries(store, node);
    if h == [] then Err(NoHistory(node))
    else Ok(HistoryView(node, CurrentFirmware(h), h, |h|))
  }

  /** As long as entries only come in through `Log`, every flag is still
      true, so the current firmware is simply the newest entry, whatever
      fields it lacks. */
  lemma CurrentIsNewestWhenAllFlagged(store: seq<LogEntry>, node: string)
    requires forall e :: e in store ==> e.isValid
    requires History(store, node).Ok?
    ensures var v := History(store, node).value;
      v.current == Some(Current(v.history[0].ru, v.history[0].bb, v.history[0].date))
  {
    var v := History(store, node).value;
    assert v.history[0] in v.history;
  }

  /** Logging keeps every flag true. */
  lemma LogKeepsFlags(store: seq<LogEntry>, sub: Submission, now: int)
    requires forall e :: e in store ==> e.isValid
    ensures forall e :: e in Log(store, sub, now) ==> e.isValid
  {
    var r := Log(store, sub, now);
    forall e | e in r
      ensures e.isValid
    {
      var k :| 0 <= k < |r| && r[k] == e;
      if k < |store| {
        assert r[k] == r[..|store|][k];
        assert e in store;
      }
    }
  }

  // ----- Validation -----

  /** The basic validation: all three firmware fields present. */
  predicate Complete(e: LogEntry) {
    e.ru.Some? && e.bb.Some? && e.date.Some?
  }

  /** The newest entry of a node, if it has any. */
  function Latest(store: seq<LogEntry>, node: string): (r: Option<LogEntry>)
    ensures r.None? <==> forall e :: e in store ==> e.nodeId != node
    ensures r.Some? ==> r.value in store && r.value.nodeId == node
    ensures r.Some? ==> forall e :: e in store && e.nodeId == node ==> e.logged <= r.value.logged
  {
    var h := NodeEntries(store, node);
    if h == [] then None
    else
      HeadIsLatest(h);
      Some(h[0])
  }

  lemma HeadIsLatest(h: seq<LogEntry>)
    requires h != [] && NewestFirst(h)
    ensures h[0] in h
    ensures forall e :: e in h ==> e.logged <= h[0].logged
  {
    forall e | e in h
      ensures e.logged <= h[0].logged
    {
      var k :| 0 <= k < |h| && h[k] == e;
    }
  }

  datatype Validation = Validation(
    nodeId: string,
    ru: Option<string>,
    bb: Option<string>,
    date: Option<int>,
    isValid: bool,
    error: Option<string>)

  /** One node's result: the newest entry judged by `Complete`, or an
      invalid result with an error when the node has no entries. */
  function ValidateNode(store: seq<LogEntry>, node: string): (r: Validation)
    ensures r.nodeId == node
    ensures r.isValid <==> Latest(store, node).Some? && Complete(Latest(store, node).value)
    ensures r.error.Some? <==> Latest(store, node).None?
    ensures Latest(store, node).Some? ==>
      r.ru == Latest(store, node).value.ru && r.bb == Latest(store, node).value.bb && r.date == Latest(store, node).value.date
    ensures Latest(store, node).None? ==> r.ru.None? && r.bb.None? && r.date.None? && r.error == Some("No firmware data found")
  {
    match Latest(store, node)
    case Some(e) => Validation(node, e.ru, e.bb, e.date, Complete(e), None)
    case None => Validation(node, None, None, None, false, Some("No firmware data found"))
  }

  predicate IsValid(v: Validation) {
    v.isValid
  }

  predicate IsInvalid(v: Validation) {
    !v.isValid
  }

  datatype Report = Report(results: seq<Validation>, totalNodes: nat, validNodes: nat, invalidNodes: nat)

  /** The loop over the requested nodes: one result per node, in request
      order, repeats included. */
  method ValidateEach(store: seq<LogEntry>, nodeIds: seq<string>) returns (results: seq<Validation>)
    ensures |results| == |nodeIds|
    ensures forall i :: 0 <= i < |nodeIds| ==> results[i] == ValidateNode(store, nodeIds[i])
  {
    results := [];
    var i := 0;
    while i < |nodeIds|
      invariant 0 <= i <= |nodeIds|
      invariant |results| == i
      invariant forall k :: 0 <= k < i ==> results[k] == NodeResult(store, nodeIds[k])
    {
      results := results + [NodeResult(store, nodeIds[i])];
      i := i + 1;
    }
  }

  /** `ValidateNode` as the loop computes it. */
  function NodeResult(store: seq<LogEntry>, node: string): Validation {
    ValidateNode(store, node)
  }

  /** The validation endpoint: the results, then the two counts, which add
      up to the number of requested nodes. */
  method ValidateNodes(store: seq<LogEntry>, nodeIds: seq<string>) returns (r: Report)
    ensures |r.results| == |nodeIds| == r.totalNodes
    ensures forall i :: 0 <= i < |nodeIds| ==> r.results[i] == ValidateNode(store, nodeIds[i])
    ensures r.validNodes == Seqs.Count(r.results, IsValid)
    ensures r.invalidNodes == Seqs.Count(r.results, IsInvalid)
    ensures r.validNodes + r.invalidNodes == r.totalNodes
  {
    var results := ValidateEach(store, nodeIds);
    Seqs.CountComplement(results, IsValid, IsInvalid);
    r := Report(results, |nodeIds|, Seqs.Count(results, IsValid), Seqs.Count(results, IsInvalid));
  }

  /** The validation and the stored flag can disagree: an entry logged
      without a baseband version is the node's current firmware in its
      history, yet its validation fails. */
  lemma FlagAndValidationDisagree(sub: Submission, now: int)
    requires sub.bb.None?
    ensures History(Log([], sub, now), sub.nodeId).Ok?
    ensures History(Log([], sub, now), sub.nodeId).value.current.Some?
    ensures !ValidateNode(Log([], sub, now), sub.nodeId).isValid
  {
    var s := Log([], sub, now);
    assert s[0] in s;
    var h := History(s, sub.nodeId).value.history;
    assert h[0] in h;
  }
}
