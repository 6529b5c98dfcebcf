/**
 One group as one browser sees it, against the server: requests are served, events arrive in the
 order they were emitted but arbitrarily late, and history pages are fetched and installed while
 older events are still on the way.
 */
module MessageView {
  import opened Wrappers
  import opened Keyset
  import opened MessageTable
  import opened MessagesService
  import opened MessageCache
  import opened MissedEvents

  const PAGE_SIZE: nat := 20

  /** A page read from the server when the log had `taken` events. */
  datatype Fetch = Fetch(page: Page, taken: nat)

  /** A row read at log position `taken` and installed when `installed` events had been delivered. */
  datatype Reading = Reading(row: Row, taken: nat, installed: nat)

  /**
   The client hears every event from position `start` on and has heard those before `delivered`.
   History variables: `first`, the log position at which the first page was read, and `readings`, the
   rows of all pages as they were read, in the order of the cached ones.
   */
  datatype World = World(
    server: Server,
    group: Group,
    start: nat,
    delivered: nat,
    cache: Cache,
    fetching: Option<Fetch>,
    first: nat,
    readings: seq<Reading>)

  datatype Action =
    | Serve(op: Op)  // some request, of anyone, is served
    | Deliver        // the next event reaches the browser
    | FetchNext      // the server answers a page request
    | Install        // the answer reaches the query cache

  /** The client has just joined the room; the server may have any history behind it. */
  function Join(server: Server, group: Group): World {
    World(server, group, |server.log|, |server.log|, EMPTY_CACHE, None, 0, [])
  }

  function ReadingsOf(fetch: Fetch, installed: nat): seq<Reading> {
    var rows := fetch.page.data;
    seq(|rows|, i requires 0 <= i < |rows| => Reading(rows[i], fetch.taken, installed))
  }

  function NextCursor(pages: seq<Page>): Option<Key> {
    if pages == [] then None else pages[|pages| - 1].nextCursor
  }

  ghost function Step(w: World, a: Action): World
    requires Faithful(w.server)
  {
    match a
    case Serve(op) => w.(server := Apply(w.server, op))
    case Deliver =>
      if w.delivered < |w.server.log| then
        var e := w.server.log[w.delivered];
        w.(delivered := w.delivered + 1, cache := if GroupOf(e) == w.group then OnEvent(w.cache, e) else w.cache)
      else w
    case FetchNext =>
      if w.fetching.None? && (w.cache.pages == [] || NextCursor(w.cache.pages).Some?) then
        var page := FindPage(Table(w.server), w.group, NextCursor(w.cache.pages), PAGE_SIZE);
        w.(fetching := Some(Fetch(page, |w.server.log|)),
           first := if w.cache.pages == [] then |w.server.log| else w.first)
      else w
    case Install =>
      if w.fetching.Some? then
        w.(cache := w.cache.(pages := w.cache.pages + [w.fetching.value.page]),
           fetching := None,
           readings := w.readings + ReadingsOf(w.fetching.value, w.delivered))
      else w
  }

  ghost function Run(w: World, actions: seq<Action>): World
    requires Faithful(w.server)
    decreases |actions|
  {
    if actions == [] then w
    else
      StepKeepsFaithful(w, actions[0]);
      Run(Step(w, actions[0]), actions[1..])
  }

  lemma StepKeepsFaithful(w: World, a: Action)
    requires Faithful(w.server)
    ensures Faithful(Step(w, a).server)
  {
    if a.Serve? {
      ApplyKeepsFaithful(w.server, a.op);
    }
  }

  /** When a page read at log position n is installed, no event after n has been delivered yet. */
  predicate Timely(w: World, a: Action) {
    a.Install? && w.fetching.Some? ==> w.delivered <= w.fetching.value.taken
  }

  ghost predicate AllTimely(w: World, actions: seq<Action>)
    requires Faithful(w.server)
    decreases |actions|
  {
    actions == [] ||
    (Timely(w, actions[0]) && (StepKeepsFaithful(w, actions[0]); AllTimely(Step(w, actions[0]), actions[1..])))
  }

  // ---------- Live copies become the server's row, once the events under way have arrived ----------

  ghost predicate CatchesUp(s: Server, group: Group, delivered: nat, r: Row)
    requires delivered <= |s.log|
  {
    && r.id in s.rows && r.group == group && s.rows[r.id].group == group && KeyOf(r) == KeyOf(s.rows[r.id])
    && Replay(Some(r), s.log[delivered..], r.id) == Some(s.rows[r.id])
  }

  ghost predicate AllCatchUp(s: Server, group: Group, delivered: nat, rows: seq<Row>)
    requires delivered <= |s.log|
  {
    forall i | 0 <= i < |rows| :: CatchesUp(s, group, delivered, rows[i])
  }

  /** Serving one more request. */
  lemma ServeKeepsCatchUp(s: Server, op: Op, group: Group, delivered: nat, r: Row)
    requires Faithful(s) && delivered <= |s.log| && CatchesUp(s, group, delivered, r)
    ensures CatchesUp(Apply(s, op), group, delivered, r)
  {
    if Enabled(s, op) && !op.DeleteGroup? {
      var after := Apply(s, op);
      var e := after.log[|s.log|];
      ApplyKeepsFaithful(s, op);
      ReplayConcat(None, s.log, [e], r.id);
      assert after.log[delivered..] == s.log[delivered..] + [e];
      ReplayConcat(Some(r), s.log[delivered..], [e], r.id);
      assert Replay(None, after.log, r.id) == Some(after.rows[r.id]);
    }
  }

  /** Hearing one more event: a copy patched by it is one event closer. */
  lemma DeliverKeepsCatchUp(s: Server, group: Group, delivered: nat, r: Row)
    requires Faithful(s) && delivered < |s.log| && CatchesUp(s, group, delivered, r)
    ensures CatchesUp(s, group, delivered + 1,
              if GroupOf(s.log[delivered]) == group then Patch(r, s.log[delivered]) else r)
  {
    var e := s.log[delivered];
    assert EventFits(s.rows, e);
    assert s.log[delivered..][1..] == s.log[delivered + 1..];
  }

  /** A creation heard for the first time starts from the row as it was created. */
  lemma CreationCatchesUp(s: Server, delivered: nat)
    requires Faithful(s) && delivered < |s.log| && s.log[delivered].Created?
    ensures CatchesUp(s, s.log[delivered].message.group, delivered + 1, s.log[delivered].message)
  {
    var m := s.log[delivered].message;
    assert EventFits(s.rows, s.log[delivered]);
    SplitLog(s.log, delivered, m.id);
    assert s.log[delivered..][1..] == s.log[delivered + 1..];
    assert InOrder(None, s.log, m.id);
  }

  lemma SplitLog(log: seq<Event>, n: nat, id: Id)
    requires n <= |log|
    ensures Replay(None, log, id) == Replay(Replay(None, log[..n], id), log[n..], id)
    ensures InOrder(None, log, id) <==> InOrder(None, log[..n], id) && InOrder(Replay(None, log[..n], id), log[n..], id)
  {
    assert log == log[..n] + log[n..];
    ReplayConcat(None, log[..n], log[n..], id);
  }

  // ---------- Page copies have heard what was delivered since they were installed ----------

  ghost predicate ReadingOk(s: Server, group: Group, delivered: nat, rd: Reading, copy: Row) {
    && rd.taken <= |s.log| && rd.installed <= delivered <= |s.log|
    && rd.row.group == group
    && Replay(None, s.log[..rd.taken], rd.row.id) == Some(rd.row)
    && Replay(Some(rd.row), s.log[rd.installed..delivered], rd.row.id) == Some(copy)
  }

  ghost predicate ReadingsOk(s: Server, group: Group, delivered: nat, readings: seq<Reading>, copies: seq<Row>) {
    && |readings| == |copies|
    && forall k | 0 <= k < |readings| :: ReadingOk(s, group, delivered, readings[k], copies[k])
  }

  lemma ServeKeepsReadings(s: Server, op: Op, group: Group, delivered: nat, readings: seq<Reading>, copies: seq<Row>)
    requires ReadingsOk(s, group, delivered, readings, copies)
    ensures ReadingsOk(Apply(s, op), group, delivered, readings, copies)
  {
    var log := Apply(s, op).log;
    forall k | 0 <= k < |readings| ensures ReadingOk(Apply(s, op), group, delivered, readings[k], copies[k]) {
      assert ReadingOk(s, group, delivered, readings[k], copies[k]);
      assert log[..readings[k].taken] == s.log[..readings[k].taken];
      assert log[readings[k].installed..delivered] == s.log[readings[k].installed..delivered];
    }
  }

  /** A page copy patched by the next event has heard one event more; events of other groups are not about it. */
  lemma DeliverKeepsReading(s: Server, group: Group, delivered: nat, rd: Reading, copy: Row)
    requires Faithful(s) && delivered < |s.log| && ReadingOk(s, group, delivered, rd, copy)
    ensures ReadingOk(s, group, delivered + 1, rd,
              if GroupOf(s.log[delivered]) == group then Patch(copy, s.log[delivered]) else copy)
    ensures s.log[delivered].Created? ==> ReadingOk(s, group, delivered + 1, rd, copy)
  {
    var e := s.log[delivered];
    var heard := s.log[rd.installed..delivered];
    SnapshotIsARow(s, rd.taken, rd.row);
    assert EventFits(s.rows, e);
    assert s.log[rd.installed..delivered + 1] == heard + [e];
    ReplayConcat(Some(rd.row), heard, [e], rd.row.id);
    ReplayKeepsId(rd.row, heard, rd.row.id);
    assert Replay(Some(copy), [e], rd.row.id) == Replay(See(Some(copy), e, rd.row.id), [], rd.row.id);
  }

  lemma {:induction false} LoadedPatched(pages: seq<Page>, e: Event)
    ensures Loaded(PatchPages(pages, e)) == PatchRows(Loaded(pages), e)
  {
    if pages != [] {
      var front := pages[..|pages| - 1];
      LoadedPatched(front, e);
      assert PatchPages(pages, e)[..|pages| - 1] == PatchPages(front, e);
    }
  }

  lemma DeliverKeepsReadings(s: Server, group: Group, delivered: nat, readings: seq<Reading>, cache: Cache)
    requires Faithful(s) && delivered < |s.log| && ReadingsOk(s, group, delivered, readings, Loaded(cache.pages))
    ensures var after := if GroupOf(s.log[delivered]) == group then OnEvent(cache, s.log[delivered]) else cache;
      ReadingsOk(s, group, delivered + 1, readings, Loaded(after.pages))
  {
    var e := s.log[delivered];
    var after := if GroupOf(e) == group then OnEvent(cache, e) else cache;
    var copies := Loaded(cache.pages);
    LoadedPatched(cache.pages, e);
    forall k | 0 <= k < |readings| ensures ReadingOk(s, group, delivered + 1, readings[k], Loaded(after.pages)[k]) {
      DeliverKeepsReading(s, group, delivered, readings[k], copies[k]);
    }
  }

  lemma InstallKeepsReadings(s: Server, group: Group, delivered: nat, readings: seq<Reading>, pages: seq<Page>,
                             fetch: Fetch)
    requires ReadingsOk(s, group, delivered, readings, Loaded(pages)) && delivered <= |s.log| && fetch.taken <= |s.log|
    requires forall i | 0 <= i < |fetch.page.data| ::
      && fetch.page.data[i].group == group
      && Replay(None, s.log[..fetch.taken], fetch.page.data[i].id) == Some(fetch.page.data[i])
    ensures ReadingsOk(s, group, delivered, readings + ReadingsOf(fetch, delivered), Loaded(pages + [fetch.page]))
  {
    assert (pages + [fetch.page])[..|pages|] == pages;
    assert s.log[delivered..delivered] == [];
    var copies := Loaded(pages + [fetch.page]);
    forall k | 0 <= k < |copies|
      ensures ReadingOk(s, group, delivered, (readings + ReadingsOf(fetch, delivered))[k], copies[k])
    {
      if k < |readings| {
        assert ReadingOk(s, group, delivered, readings[k], Loaded(pages)[k]);
      }
    }
  }

  // ---------- Coverage ----------

  ghost predicate Existed(s: Server, n: nat, id: Id)
    requires n <= |s.log|
  {
    Replay(None, s.log[..n], id).Some?
  }

  /** A row of the table, in this group. */
  ghost predicate Stands(s: Server, group: Group, id: Id) {
    id in Table(s) && s.rows[id].group == group
  }

  predicate InPages(pages: seq<Page>, id: Id) {
    exists p :: 0 <= p < |pages| && HasId(pages[p].data, id)
  }

  ghost predicate PagesCover(w: World)
    requires w.first <= |w.server.log|
  {
    forall id: Id | Existed(w.server, w.first, id) && Stands(w.server, w.group, id)
      && Reached(NextCursor(w.cache.pages), KeyOf(w.server.rows[id])) :: InPages(w.cache.pages, id)
  }

  ghost predicate FetchCovers(w: World)
    requires w.first <= |w.server.log| && w.fetching.Some?
  {
    var page := w.fetching.value.page;
    forall id: Id | Existed(w.server, w.first, id) && Stands(w.server, w.group, id)
      && Below(NextCursor(w.cache.pages), KeyOf(w.server.rows[id]))
      && Reached(page.nextCursor, KeyOf(w.server.rows[id])) ::
      HasId(page.data, id)
  }

  ghost predicate FetchIsSnapshot(w: World)
    requires w.fetching.Some?
  {
    var Fetch(page, taken) := w.fetching.value;
    && taken <= |w.server.log|
    && forall i | 0 <= i < |page.data| ::
         page.data[i].group == w.group && Replay(None, w.server.log[..taken], page.data[i].id) == Some(page.data[i])
  }

  ghost predicate LiveCovers(w: World)
    requires w.delivered <= |w.server.log|
  {
    forall i | w.start <= i < w.delivered && w.server.log[i].Created? && w.server.log[i].message.group == w.group ::
      HasId(w.cache.live, w.server.log[i].message.id)
  }

  ghost predicate Good(w: World) {
    && Faithful(w.server)
    && w.start <= w.delivered <= |w.server.log|
    && AllCatchUp(w.server, w.group, w.delivered, w.cache.live)
    && ReadingsOk(w.server, w.group, w.delivered, w.readings, Loaded(w.cache.pages))
    && LiveCovers(w)
    && w.first <= |w.server.log|
    && (w.fetching.Some? || w.cache.pages != [] ==> w.start <= w.first)
    && (w.fetching.Some? ==> FetchIsSnapshot(w) && FetchCovers(w))
    && (w.cache.pages != [] ==> PagesCover(w))
  }

  lemma ServeKeepsLive(s: Server, op: Op, group: Group, delivered: nat, live: seq<Row>)
    requires Faithful(s) && delivered <= |s.log| && AllCatchUp(s, group, delivered, live)
    ensures |s.log| <= |Apply(s, op).log| && AllCatchUp(Apply(s, op), group, delivered, live)
  {
    forall i | 0 <= i < |live| ensures CatchesUp(Apply(s, op), group, delivered, live[i]) {
      ServeKeepsCatchUp(s, op, group, delivered, live[i]);
    }
  }

  /** Serving a request only adds to the log, and moves no row that existed. */
  lemma ServeKeepsThePast(s: Server, op: Op, n: nat, id: Id)
    requires Faithful(s) && n <= |s.log|
    ensures var after := Apply(s, op);
      && |s.log| <= |after.log| && after.log[..n] == s.log[..n]
      && (Existed(s, n, id) ==>
            && id in s.rows && id in after.rows
            && KeyOf(after.rows[id]) == KeyOf(s.rows[id]) && after.rows[id].group == s.rows[id].group)
  {
    ApplyKeepsFaithful(s, op);
    SplitLog(s.log, n, id);
    if Existed(s, n, id) {
      ReplayFromNoneKeepsId(s.log[..n], id);
      ReplayKeepsId(Replay(None, s.log[..n], id).value, s.log[n..], id);
    }
  }

  lemma ServeKeepsGood(w: World, op: Op)
    requires Good(w)
    ensures Good(Step(w, Serve(op)))
  {
    var s, after := w.server, Apply(w.server, op);
    ApplyKeepsFaithful(s, op);
    ServeKeepsLive(s, op, w.group, w.delivered, w.cache.live);
    ServeKeepsReadings(s, op, w.group, w.delivered, w.readings, Loaded(w.cache.pages));
    forall id: Id ensures Existed(after, w.first, id) <==> Existed(s, w.first, id) {
      ServeKeepsThePast(s, op, w.first, id);
    }
    forall id: Id | Existed(s, w.first, id)
      ensures id in s.rows && KeyOf(after.rows[id]) == KeyOf(s.rows[id]) && after.rows[id].group == s.rows[id].group
    {
      ServeKeepsThePast(s, op, w.first, id);
    }
    if w.fetching.Some? {
      ServeKeepsThePast(s, op, w.fetching.value.taken, 0);
    }
  }

  // ---------- Deliver ----------

  lemma PatchesCatchUp(s: Server, group: Group, delivered: nat, rows: seq<Row>)
    requires Faithful(s) && delivered < |s.log| && AllCatchUp(s, group, delivered, rows)
    ensures var e := s.log[delivered];
      && (GroupOf(e) == group ==> AllCatchUp(s, group, delivered + 1, PatchRows(rows, e)))
      && (GroupOf(e) != group || e.Created? ==> AllCatchUp(s, group, delivered + 1, rows))
  {
    forall i | 0 <= i < |rows|
      ensures CatchesUp(s, group, delivered + 1,
                if GroupOf(s.log[delivered]) == group then Patch(rows[i], s.log[delivered]) else rows[i])
    {
      DeliverKeepsCatchUp(s, group, delivered, rows[i]);
    }
  }

  lemma DeliverKeepsLive(s: Server, group: Group, delivered: nat, cache: Cache)
    requires Faithful(s) && delivered < |s.log| && AllCatchUp(s, group, delivered, cache.live)
    ensures var after := if GroupOf(s.log[delivered]) == group then OnEvent(cache, s.log[delivered]) else cache;
      AllCatchUp(s, group, delivered + 1, after.live)
  {
    PatchesCatchUp(s, group, delivered, cache.live);
    if s.log[delivered].Created? {
      CreationCatchesUp(s, delivered);
    }
  }

  lemma PatchKeepsIds(rows: seq<Row>, e: Event, id: Id)
    ensures HasId(PatchRows(rows, e), id) <==> HasId(rows, id)
  {
    if HasId(rows, id) {
      var i :| 0 <= i < |rows| && rows[i].id == id;
      assert PatchRows(rows, e)[i].id == id;
    }
    if HasId(PatchRows(rows, e), id) {
      var i :| 0 <= i < |rows| && PatchRows(rows, e)[i].id == id;
      assert rows[i].id == id;
    }
  }

  /** An event adds at most the message it creates, and leaves every page its ids and its cursor. */
  lemma EventKeepsIds(cache: Cache, e: Event, id: Id)
    ensures HasId(OnEvent(cache, e).live, id) <==> HasId(cache.live, id) || (e.Created? && e.message.id == id)
    ensures InPages(OnEvent(cache, e).pages, id) <==> InPages(cache.pages, id)
    ensures NextCursor(OnEvent(cache, e).pages) == NextCursor(cache.pages)
    ensures |OnEvent(cache, e).pages| == |cache.pages|
  {
    var after := OnEvent(cache, e);
    if e.Created? {
      if !HasId(cache.live, e.message.id) {
        assert after.live[|cache.live|].id == e.message.id;
        assert forall i | 0 <= i < |cache.live| :: after.live[i] == cache.live[i];
      }
    } else {
      PatchKeepsIds(cache.live, e, id);
      forall p | 0 <= p < |cache.pages| ensures HasId(after.pages[p].data, id) <==> HasId(cache.pages[p].data, id) {
        PatchKeepsIds(cache.pages[p].data, e, id);
      }
    }
  }

  lemma DeliverKeepsGood(w: World)
    requires Good(w)
    ensures Good(Step(w, Deliver))
  {
    if w.delivered < |w.server.log| {
      var e := w.server.log[w.delivered];
      var after := Step(w, Deliver);
      DeliverKeepsLive(w.server, w.group, w.delivered, w.cache);
      DeliverKeepsReadings(w.server, w.group, w.delivered, w.readings, w.cache);
      forall id: Id ensures GroupOf(e) == w.group ==>
        && (HasId(after.cache.live, id) <==> HasId(w.cache.live, id) || (e.Created? && e.message.id == id))
        && (InPages(after.cache.pages, id) <==> InPages(w.cache.pages, id))
        && NextCursor(after.cache.pages) == NextCursor(w.cache.pages)
        && |after.cache.pages| == |w.cache.pages|
      {
        EventKeepsIds(w.cache, e, id);
      }
      assert NextCursor(after.cache.pages) == NextCursor(w.cache.pages) && |after.cache.pages| == |w.cache.pages| by {
        EventKeepsIds(w.cache, e, 0);
      }
    }
  }

  // ---------- Fetch and install ----------

  /** A page is a snapshot of its rows, and has every row of the table from its cursor to the next. */
  lemma PageIsRead(s: Server, group: Group, cursor: Option<Key>)
    requires Faithful(s)
    ensures var page := FindPage(Table(s), group, cursor, PAGE_SIZE);
      && (forall i | 0 <= i < |page.data| ::
            && page.data[i].group == group
            && Replay(None, s.log[..|s.log|], page.data[i].id) == Some(page.data[i]))
      && (forall id: Id | Stands(s, group, id)
            && Below(cursor, KeyOf(s.rows[id])) && Reached(page.nextCursor, KeyOf(s.rows[id])) ::
            HasId(page.data, id))
  {
    var page := FindPage(Table(s), group, cursor, PAGE_SIZE);
    PageIsExact(Table(s), group, cursor, PAGE_SIZE);
    assert s.log[..|s.log|] == s.log;
    forall i | 0 <= i < |page.data|
      ensures page.data[i].group == group && Replay(None, s.log[..|s.log|], page.data[i].id) == Some(page.data[i])
    {
      assert page.data[i] in page.data;
    }
    forall id: Id | Stands(s, group, id)
      && Below(cursor, KeyOf(s.rows[id])) && Reached(page.nextCursor, KeyOf(s.rows[id]))
      ensures HasId(page.data, id)
    {
      assert s.rows[id] in page.data;
    }
  }

  lemma FetchKeepsGood(w: World)
    requires Good(w)
    ensures Good(Step(w, FetchNext))
  {
    PageIsRead(w.server, w.group, NextCursor(w.cache.pages));
  }

  lemma InstallKeepsGood(w: World)
    requires Good(w)
    ensures Good(Step(w, Install))
  {
    if w.fetching.Some? {
      var after := Step(w, Install);
      var page := w.fetching.value.page;
      InstallKeepsReadings(w.server, w.group, w.delivered, w.readings, w.cache.pages, w.fetching.value);
      forall id: Id | Existed(w.server, w.first, id) && Stands(w.server, w.group, id)
        && Reached(NextCursor(after.cache.pages), KeyOf(w.server.rows[id]))
        ensures InPages(after.cache.pages, id)
      {
        assert NextCursor(after.cache.pages) == page.nextCursor;
        if w.cache.pages == [] || Below(NextCursor(w.cache.pages), KeyOf(w.server.rows[id])) {
          assert HasId(after.cache.pages[|w.cache.pages|].data, id);
        } else {
          assert InPages(w.cache.pages, id);
          var p :| 0 <= p < |w.cache.pages| && HasId(w.cache.pages[p].data, id);
          assert HasId(after.cache.pages[p].data, id);
        }
      }
    }
  }

  /** A row once read from the table still names a row with the same key and group. */
  lemma SnapshotIsARow(s: Server, taken: nat, r: Row)
    requires Faithful(s) && taken <= |s.log| && Replay(None, s.log[..taken], r.id) == Some(r)
    ensures r.id in s.rows && KeyOf(s.rows[r.id]) == KeyOf(r) && s.rows[r.id].group == r.group
  {
    SplitLog(s.log, taken, r.id);
    ReplayKeepsId(r, s.log[taken..], r.id);
    assert Replay(None, s.log, r.id) == Some(s.rows[r.id]);
    LogRowsFit(s, s.log[..taken], r.id);
  }

  lemma {:induction false} LogRowsFit(s: Server, events: seq<Event>, id: Id)
    requires Faithful(s) && id in s.rows && Replay(None, events, id).Some?
    requires forall i | 0 <= i < |events| :: EventFits(s.rows, events[i])
    ensures var r := Replay(None, events, id).value; KeyOf(s.rows[id]) == KeyOf(r) && s.rows[id].group == r.group
    decreases |events|
  {
    assert EventFits(s.rows, events[0]);
    var copy := See(None, events[0], id);
    if copy.Some? {
      PatchedRowsFit(s, copy.value, events[1..], id);
    } else {
      LogRowsFit(s, events[1..], id);
    }
  }

  lemma {:induction false} PatchedRowsFit(s: Server, r: Row, events: seq<Event>, id: Id)
    requires Faithful(s) && id in s.rows && r.id == id
    requires KeyOf(s.rows[id]) == KeyOf(r) && s.rows[id].group == r.group
    requires forall i | 0 <= i < |events| :: EventFits(s.rows, events[i])
    ensures Replay(Some(r), events, id).Some?
    ensures var r' := Replay(Some(r), events, id).value; KeyOf(s.rows[id]) == KeyOf(r') && s.rows[id].group == r'.group
    decreases |events|
  {
    if events != [] {
      assert EventFits(s.rows, events[0]);
      PatchedRowsFit(s, Patch(r, events[0]), events[1..], id);
    }
  }

  lemma StepKeepsGood(w: World, a: Action)
    requires Good(w)
    ensures Good(Step(w, a))
  {
    match a
    case Serve(op) => ServeKeepsGood(w, op);
    case Deliver => DeliverKeepsGood(w);
    case FetchNext => FetchKeepsGood(w);
    case Install => InstallKeepsGood(w);
  }

  lemma {:induction false} RunKeepsGood(w: World, actions: seq<Action>)
    requires Good(w)
    ensures Good(Run(w, actions)) && Run(w, actions).group == w.group && Run(w, actions).start == w.start
    decreases |actions|
  {
    if actions != [] {
      StepKeepsGood(w, actions[0]);
      RunKeepsGood(Step(w, actions[0]), actions[1..]);
    }
  }

  // ---------- The history is loaded once ----------

  function KeysRead(readings: seq<Reading>): seq<Key> {
    seq(|readings|, i requires 0 <= i < |readings| => KeyOf(readings[i].row))
  }

  /** Newest first, down to the cursor of the last page; the page under way goes on from there. */
  ghost predicate LoadedInOrder(w: World) {
    && Descending(KeysRead(w.readings))
    && (w.cache.pages == [] ==> w.readings == [])
    && (forall k | k in KeysRead(w.readings) :: Reached(NextCursor(w.cache.pages), k))
    && (w.fetching.Some? ==>
          var page := w.fetching.value.page;
          && (w.cache.pages == [] || NextCursor(w.cache.pages).Some?)
          && Descending(Keys(page.data))
          && (forall k | k in Keys(page.data) :: Below(NextCursor(w.cache.pages), k) && Reached(page.nextCursor, k))
          && (NextCursor(w.cache.pages).Some? && page.nextCursor.Some? ==>
                Less(page.nextCursor.value, NextCursor(w.cache.pages).value)))
  }

  lemma PageRowGoesOn(rows: map<Id, Row>, group: Group, cursor: Option<Key>, i: nat)
    requires forall id | id in rows :: rows[id].id == id
    requires i < |FindPage(rows, group, cursor, PAGE_SIZE).data|
    ensures var page := FindPage(rows, group, cursor, PAGE_SIZE);
      Below(cursor, KeyOf(page.data[i])) && Reached(page.nextCursor, KeyOf(page.data[i]))
  {
    PageIsExact(rows, group, cursor, PAGE_SIZE);
    var page := FindPage(rows, group, cursor, PAGE_SIZE);
    assert page.data[i] in page.data;
  }

  lemma PageGoesOn(rows: map<Id, Row>, group: Group, cursor: Option<Key>)
    requires forall id | id in rows :: rows[id].id == id
    ensures var page := FindPage(rows, group, cursor, PAGE_SIZE);
      && Descending(Keys(page.data))
      && (forall k | k in Keys(page.data) :: Below(cursor, k) && Reached(page.nextCursor, k))
      && (cursor.Some? && page.nextCursor.Some? ==> Less(page.nextCursor.value, cursor.value))
  {
    var page := FindPage(rows, group, cursor, PAGE_SIZE);
    PageIsOrdered(rows, group, cursor, PAGE_SIZE);
    forall i | 0 <= i < |page.data|
      ensures Below(cursor, KeyOf(page.data[i])) && Reached(page.nextCursor, KeyOf(page.data[i]))
    {
      PageRowGoesOn(rows, group, cursor, i);
    }
  }

  lemma FetchKeepsOrder(w: World)
    requires Faithful(w.server) && LoadedInOrder(w)
    ensures LoadedInOrder(Step(w, FetchNext))
  {
    PageGoesOn(Table(w.server), w.group, NextCursor(w.cache.pages));
  }

  lemma InstallKeepsOrder(w: World)
    requires Faithful(w.server) && LoadedInOrder(w)
    ensures LoadedInOrder(Step(w, Install))
  {
    if w.fetching.Some? {
      var page := w.fetching.value.page;
      var after := Step(w, Install);
      var old', new' := KeysRead(w.readings), Keys(page.data);
      assert KeysRead(after.readings) == old' + new';
      assert NextCursor(after.cache.pages) == page.nextCursor;
      DescendingOnwards(old', new', NextCursor(w.cache.pages));
      forall k | k in old' + new' ensures Reached(page.nextCursor, k) {
        if k in old' {
          assert w.readings != [];
        }
      }
    }
  }

  lemma DescendingOnwards(a: seq<Key>, b: seq<Key>, cursor: Option<Key>)
    requires Descending(a) && Descending(b) && (cursor.None? ==> a == [])
    requires forall k | k in a :: Reached(cursor, k)
    requires forall k | k in b :: Below(cursor, k)
    ensures Descending(a + b)
  {
    forall i, j | 0 <= i < j < |a + b| ensures Less((a + b)[j], (a + b)[i]) {
      if i < |a| <= j {
        assert a[i] in a && b[j - |a|] in b;
      }
    }
  }

  lemma DeliverKeepsOrder(w: World)
    requires Faithful(w.server) && LoadedInOrder(w)
    ensures LoadedInOrder(Step(w, Deliver))
  {
    if w.delivered < |w.server.log| {
      EventKeepsIds(w.cache, w.server.log[w.delivered], 0);
    }
  }

  lemma {:induction false} RunKeepsOrder(w: World, actions: seq<Action>)
    requires Faithful(w.server) && LoadedInOrder(w)
    ensures LoadedInOrder(Run(w, actions))
    decreases |actions|
  {
    if actions != [] {
      StepKeepsFaithful(w, actions[0]);
      match actions[0] {
        case Serve(_) =>
        case Deliver => DeliverKeepsOrder(w);
        case FetchNext => FetchKeepsOrder(w);
        case Install => InstallKeepsOrder(w);
      }
      RunKeepsOrder(Step(w, actions[0]), actions[1..]);
    }
  }

  /** In every run the history pages are read newest first, twenty at a time, and no message is loaded twice. */
  lemma HistoryIsLoadedOnce(server: Server, group: Group, actions: seq<Action>)
    requires Faithful(server)
    ensures var w := Run(Join(server, group), actions);
      && Descending(KeysRead(w.readings))
      && Faithful(w.server)
      && var asked := Step(w, FetchNext);
         w.fetching.None? && asked.fetching.Some? ==>
           var page := asked.fetching.value.page;
           page.limit == 20 && |page.data| <= 20 && (page.hasMore ==> |page.data| == 20)
  {
    RunKeepsOrder(Join(server, group), actions);
    JoinIsGood(server, group);
    RunKeepsGood(Join(server, group), actions);
    var w := Run(Join(server, group), actions);
    PageIsOrdered(Table(w.server), w.group, NextCursor(w.cache.pages), 20);
  }

  // ---------- The view ----------

  lemma {:induction false} LoadedIsThePages(pages: seq<Page>, r: Row)
    ensures r in Loaded(pages) <==> exists p :: 0 <= p < |pages| && r in pages[p].data
  {
    if pages != [] {
      var front := pages[..|pages| - 1];
      LoadedIsThePages(front, r);
      if r in Loaded(pages) && r !in pages[|pages| - 1].data {
        var p :| 0 <= p < |front| && r in front[p].data;
        assert r in pages[p].data;
      }
      if p :| 0 <= p < |pages| && r in pages[p].data {
        assert p < |front| ==> r in front[p].data;
      }
    }
  }

  lemma ShownIsCached(cache: Cache, id: Id)
    ensures Shown(cache, id).Some? ==>
      && Shown(cache, id).value.id == id
      && (|| Shown(cache, id).value in cache.live
          || exists p :: 0 <= p < |cache.pages| && Shown(cache, id).value in cache.pages[p].data)
    ensures HasId(cache.live, id) || InPages(cache.pages, id) ==> Shown(cache, id).Some?
  {
    var all := Loaded(cache.pages) + cache.live;
    LastHasId(all, id);
    if Shown(cache, id).Some? {
      LoadedIsThePages(cache.pages, Shown(cache, id).value);
    }
    if HasId(cache.live, id) {
      var i :| 0 <= i < |cache.live| && cache.live[i].id == id;
      assert all[|Loaded(cache.pages)| + i].id == id;
    }
    if InPages(cache.pages, id) {
      var p :| 0 <= p < |cache.pages| && HasId(cache.pages[p].data, id);
      var i :| 0 <= i < |cache.pages[p].data| && cache.pages[p].data[i].id == id;
      LoadedIsThePages(cache.pages, cache.pages[p].data[i]);
      var j :| 0 <= j < |Loaded(cache.pages)| && Loaded(cache.pages)[j] == cache.pages[p].data[i];
      assert all[j].id == id;
    }
  }

  lemma {:induction false} CreationInLog(events: seq<Event>, id: Id) returns (i: nat)
    requires Replay(None, events, id).Some?
    ensures i < |events| && events[i].Created? && events[i].message.id == id
    decreases |events|
  {
    if events[0].Created? && events[0].message.id == id {
      i := 0;
    } else {
      i := CreationInLog(events[1..], id);
      i := i + 1;
    }
  }

  lemma GoodMeansShown(w: World, id: Id)
    requires Good(w) && w.cache.pages != [] && w.delivered == |w.server.log|
    requires Stands(w.server, w.group, id)
    requires Reached(NextCursor(w.cache.pages), KeyOf(w.server.rows[id])) || !Existed(w.server, w.start, id)
    ensures Shown(w.cache, id).Some?
  {
    ShownIsCached(w.cache, id);
    var n := if Existed(w.server, w.start, id) then w.first else w.start;
    if !Existed(w.server, n, id) {
      SplitLog(w.server.log, n, id);
      var i := CreationInLog(w.server.log[n..], id);
      assert w.server.log[n..][i] == w.server.log[n + i];
      assert w.server.log[n + i].Created? && w.server.log[n + i].message.id == id;
      assert EventFits(w.server.rows, w.server.log[n + i]);
    }
  }

  lemma JoinIsGood(server: Server, group: Group)
    requires Faithful(server)
    ensures Good(Join(server, group))
  {}

  /** The reading behind the last page copy of a message. */
  function LastReading(readings: seq<Reading>, id: Id): Option<Reading> {
    if readings == [] then None
    else if readings[|readings| - 1].row.id == id then Some(readings[|readings| - 1])
    else LastReading(readings[..|readings| - 1], id)
  }

  lemma {:induction false} LastOfConcat(a: seq<Row>, b: seq<Row>, id: Id)
    ensures Last(a + b, id) == if Last(b, id).Some? then Last(b, id) else Last(a, id)
    ensures Last(b, id).Some? <==> HasId(b, id)
  {
    if b == [] {
      assert a + b == a;
    } else {
      assert (a + b)[..|a + b| - 1] == a + b[..|b| - 1];
      LastOfConcat(a, b[..|b| - 1], id);
      assert HasId(b, id) <==> b[|b| - 1].id == id || HasId(b[..|b| - 1], id);
    }
  }

  lemma {:induction false} LastCopyIsRead(s: Server, group: Group, delivered: nat, readings: seq<Reading>,
                                          copies: seq<Row>, id: Id)
    requires ReadingsOk(s, group, delivered, readings, copies)
    ensures Last(copies, id).Some? <==> LastReading(readings, id).Some?
    ensures Last(copies, id).Some? ==>
      var rd := LastReading(readings, id).value;
      rd in readings && rd.row.id == id && ReadingOk(s, group, delivered, rd, Last(copies, id).value)
  {
    if readings != [] {
      var n := |readings| - 1;
      assert ReadingOk(s, group, delivered, readings[n], copies[n]);
      ReplayKeepsId(readings[n].row, s.log[readings[n].installed..delivered], readings[n].row.id);
      LastCopyIsRead(s, group, delivered, readings[..n], copies[..n], id);
    }
  }

  /**
   A row read at position `taken` catches up from any earlier position: the events it has already
   seen are applied to it again and change nothing.
   */
  lemma SnapshotCatchesUp(s: Server, delivered: nat, taken: nat, r: Row)
    requires Faithful(s) && delivered <= taken <= |s.log|
    requires Replay(None, s.log[..taken], r.id) == Some(r)
    ensures r.id in s.rows && Replay(Some(r), s.log[delivered..], r.id) == Some(s.rows[r.id])
  {
    var past, seen, ahead := s.log[..delivered], s.log[delivered..taken], s.log[taken..];
    SplitLog(s.log, taken, r.id);
    assert s.log[..taken][..delivered] == past && s.log[..taken][delivered..] == seen;
    SplitLog(s.log[..taken], delivered, r.id);
    assert InOrder(None, s.log, r.id);
    var copy := Replay(None, past, r.id);
    if copy.Some? {
      ReplayFromNoneKeepsId(past, r.id);
    }
    SeenEventsChangeNothing(copy, seen, r.id);
    assert s.log[delivered..] == seen + ahead;
    ReplayConcat(Some(r), seen, ahead, r.id);
    ReplayKeepsId(r, ahead, r.id);
  }

  /** What installing a reading after the events from `taken` to `installed` were delivered leaves of its row. */
  predicate ReadingHolds(log: seq<Event>, rd: Reading) {
    || rd.installed <= rd.taken
    || (rd.installed <= |log| && Harmless(rd.row, log[rd.taken..rd.installed], log[rd.installed..]))
  }

  lemma SplitAt(log: seq<Event>, a: nat, b: nat)
    requires a <= b <= |log|
    ensures log[a..] == log[a..b] + log[b..]
  {}

  lemma UnheardIsExact(s: Server, rd: Reading)
    requires Faithful(s) && rd.taken <= |s.log| && rd.installed <= |s.log|
    requires Replay(None, s.log[..rd.taken], rd.row.id) == Some(rd.row) && rd.row.id in s.rows
    ensures Replay(Some(rd.row), s.log[rd.installed..], rd.row.id) == Some(s.rows[rd.row.id]) <==>
      ReadingHolds(s.log, rd)
  {
    if rd.installed <= rd.taken {
      SnapshotCatchesUp(s, rd.installed, rd.taken, rd.row);
    } else {
      SplitLog(s.log, rd.taken, rd.row.id);
      SplitAt(s.log, rd.taken, rd.installed);
      MissedIffHarmless(rd.row, s.log[rd.taken..rd.installed], s.log[rd.installed..]);
    }
  }

  /** A page copy ends as the server's row if and only if it missed nothing, or nothing that matters. */
  lemma ReadingIsExact(s: Server, group: Group, delivered: nat, rd: Reading, copy: Row)
    requires Faithful(s) && ReadingOk(s, group, delivered, rd, copy)
    ensures rd.row.id in s.rows && s.rows[rd.row.id].group == group
    ensures KeyOf(copy) == KeyOf(s.rows[rd.row.id]) && copy.id == rd.row.id && copy.group == group
    ensures Replay(Some(copy), s.log[delivered..], rd.row.id) == Some(s.rows[rd.row.id]) <==> ReadingHolds(s.log, rd)
  {
    SnapshotIsARow(s, rd.taken, rd.row);
    CopyFits(s, rd, delivered);
    SplitAt(s.log, rd.installed, delivered);
    ReplayConcat(Some(rd.row), s.log[rd.installed..delivered], s.log[delivered..], rd.row.id);
    UnheardIsExact(s, rd);
  }

  lemma CopyFits(s: Server, rd: Reading, delivered: nat)
    requires Faithful(s) && rd.taken <= |s.log| && rd.installed <= delivered <= |s.log|
    requires Replay(None, s.log[..rd.taken], rd.row.id) == Some(rd.row)
    ensures var copy := Replay(Some(rd.row), s.log[rd.installed..delivered], rd.row.id);
      copy.Some? && rd.row.id in s.rows && KeyOf(copy.value) == KeyOf(s.rows[rd.row.id])
      && copy.value.group == s.rows[rd.row.id].group
  {
    SnapshotIsARow(s, rd.taken, rd.row);
    var heard := s.log[rd.installed..delivered];
    forall i | 0 <= i < |heard| ensures EventFits(s.rows, heard[i]) {
      assert heard[i] == s.log[rd.installed + i];
    }
    PatchedRowsFit(s, rd.row, heard, rd.row.id);
  }

  /** The copy on screen is live, or its page was installed in time, or what it missed is harmless. */
  predicate CopyHolds(w: World, id: Id) {
    || HasId(w.cache.live, id)
    || (LastReading(w.readings, id).Some? && ReadingHolds(w.server.log, LastReading(w.readings, id).value))
  }

  lemma ShownIsExact(w: World, id: Id)
    requires Good(w) && Shown(w.cache, id).Some?
    ensures var r := Shown(w.cache, id).value;
      && id in w.server.rows && r.id == id && w.server.rows[id].group == w.group && KeyOf(r) == KeyOf(w.server.rows[id])
      && r.group == w.group
      && (Replay(Some(r), w.server.log[w.delivered..], id) == Some(w.server.rows[id]) <==> CopyHolds(w, id))
  {
    var copies := Loaded(w.cache.pages);
    LastOfConcat(copies, w.cache.live, id);
    LastHasId(w.cache.live, id);
    if HasId(w.cache.live, id) {
      var i :| 0 <= i < |w.cache.live| && w.cache.live[i] == Last(w.cache.live, id).value;
      assert CatchesUp(w.server, w.group, w.delivered, w.cache.live[i]);
    } else {
      LastCopyIsRead(w.server, w.group, w.delivered, w.readings, copies, id);
      ReadingIsExact(w.server, w.group, w.delivered, LastReading(w.readings, id).value, Shown(w.cache, id).value);
    }
  }

  // ---------- Every run ----------

  /**
   Installing a page, however late: each of its rows will end as the server's if and only if what was
   delivered between its reading and now is harmless to it.
   */
  lemma InstallIsExact(w: World, i: nat)
    requires Good(w) && w.fetching.Some? && i < |w.fetching.value.page.data|
    ensures var Fetch(page, taken) := w.fetching.value;
      var row := page.data[i];
      && taken <= |w.server.log| && row.id in w.server.rows
      && (Replay(Some(row), w.server.log[w.delivered..], row.id) == Some(w.server.rows[row.id]) <==>
            w.delivered <= taken || Harmless(row, w.server.log[taken..w.delivered], w.server.log[w.delivered..]))
  {
    var Fetch(page, taken) := w.fetching.value;
    assert w.server.log[w.delivered..w.delivered] == [];
    ReadingIsExact(w.server, w.group, w.delivered, Reading(page.data[i], taken, w.delivered), page.data[i]);
  }

  /** The events under way turn the copy on screen into the table's row. */
  ghost predicate WillConverge(w: World, id: Id)
    requires w.delivered <= |w.server.log|
  {
    && id in Table(w.server)
    && Replay(Shown(w.cache, id), w.server.log[w.delivered..], id) == Some(Table(w.server)[id])
  }

  /**
   At every moment of every run, a message on screen is the table's row with some late events missing,
   stale ones among them, if and only if the group stands and its copy holds.
   */
  lemma EveryCopyIsExact(server: Server, group: Group, actions: seq<Action>, id: Id)
    requires Faithful(server) && Shown(Run(Join(server, group), actions).cache, id).Some?
    ensures var w := Run(Join(server, group), actions);
      && Good(w) && id in w.server.rows
      && (WillConverge(w, id) <==> group !in w.server.gone && CopyHolds(w, id))
  {
    JoinIsGood(server, group);
    RunKeepsGood(Join(server, group), actions);
    ShownIsExact(Run(Join(server, group), actions), id);
  }

  ghost predicate InTime(readings: seq<Reading>) {
    forall rd | rd in readings :: rd.installed <= rd.taken
  }

  lemma {:induction false} TimelyRunsReadInTime(w: World, actions: seq<Action>)
    requires Faithful(w.server) && InTime(w.readings) && AllTimely(w, actions)
    ensures InTime(Run(w, actions).readings)
    decreases |actions|
  {
    if actions != [] {
      StepKeepsFaithful(w, actions[0]);
      TimelyRunsReadInTime(Step(w, actions[0]), actions[1..]);
    }
  }

  lemma InTimeHolds(w: World, id: Id)
    requires Good(w) && InTime(w.readings) && Shown(w.cache, id).Some?
    ensures CopyHolds(w, id)
  {
    var copies := Loaded(w.cache.pages);
    LastOfConcat(copies, w.cache.live, id);
    LastCopyIsRead(w.server, w.group, w.delivered, w.readings, copies, id);
  }

  /** With timely installs, the events under way turn every message on screen into its row, while the group stands. */
  lemma EveryCopyCatchesUp(server: Server, group: Group, actions: seq<Action>, id: Id)
    requires Faithful(server) && AllTimely(Join(server, group), actions)
    requires Shown(Run(Join(server, group), actions).cache, id).Some?
    ensures var w := Run(Join(server, group), actions);
      && w.delivered <= |w.server.log| && id in w.server.rows
      && (WillConverge(w, id) <==> group !in w.server.gone)
  {
    EveryCopyIsExact(server, group, actions, id);
    TimelyRunsReadInTime(Join(server, group), actions);
    InTimeHolds(Run(Join(server, group), actions), id);
  }

  /** Rows of the group at or above the oldest loaded row, or created since the client joined. */
  ghost predicate InReach(w: World, id: Id)
    requires w.start <= |w.server.log|
  {
    && Stands(w.server, w.group, id)
    && (Reached(NextCursor(w.cache.pages), KeyOf(w.server.rows[id])) || !Existed(w.server, w.start, id))
  }

  /**
   Once every event has arrived, in any run: the view is strictly ascending, so holds nothing twice;
   each message has the key and group of a row once inserted, and is the table's row if and only if the
   group stands and its copy holds; and no row in reach is missing.
   */
  lemma ViewIsExact(server: Server, group: Group, actions: seq<Action>, messages: seq<Row>)
    requires Faithful(server)
    requires var w := Run(Join(server, group), actions);
      w.delivered == |w.server.log| && w.cache.pages != [] && IsView(messages, w.cache)
    ensures var w := Run(Join(server, group), actions);
      && Good(w) && w.group == group && Ascending(Keys(messages))
      && (forall m | m in messages ::
            && m.id in w.server.rows && KeyOf(m) == KeyOf(w.server.rows[m.id]) && m.group == group
            && (m.id in Table(w.server) && m == w.server.rows[m.id] <==> group !in w.server.gone && CopyHolds(w, m.id)))
      && (forall id | InReach(w, id) :: exists m :: m in messages && m.id == id)
  {
    JoinIsGood(server, group);
    RunKeepsGood(Join(server, group), actions);
    var w := Run(Join(server, group), actions);
    assert w.server.log[w.delivered..] == [];
    forall m | m in messages
      ensures m.id in w.server.rows && KeyOf(m) == KeyOf(w.server.rows[m.id]) && m.group == group
      ensures m.id in Table(w.server) && m == w.server.rows[m.id] <==> group !in w.server.gone && CopyHolds(w, m.id)
    {
      ShownIsExact(w, m.id);
    }
    forall id | InReach(w, id) ensures exists m :: m in messages && m.id == id {
      GoodMeansShown(w, id);
      ShownIsExact(w, id);
      assert Shown(w.cache, id).value in messages;
    }
  }

  /**
   With timely installs the view is the table's, every message equal to its row and none in reach
   missing, if and only if the group stands or nothing is shown.
   */
  lemma ViewConverges(server: Server, group: Group, actions: seq<Action>, messages: seq<Row>)
    requires Faithful(server) && AllTimely(Join(server, group), actions)
    requires var w := Run(Join(server, group), actions);
      w.delivered == |w.server.log| && w.cache.pages != [] && IsView(messages, w.cache)
    ensures var w := Run(Join(server, group), actions);
      && w.start <= |w.server.log| && Ascending(Keys(messages)) && (forall m | m in messages :: m.group == group)
      && ((forall m | m in messages :: m.id in Table(w.server) && m == w.server.rows[m.id])
          <==> group !in w.server.gone || messages == [])
      && (forall id | InReach(w, id) :: w.server.rows[id] in messages)
  {
    ViewIsExact(server, group, actions, messages);
    TimelyRunsReadInTime(Join(server, group), actions);
    var w := Run(Join(server, group), actions);
    forall m | m in messages ensures CopyHolds(w, m.id) {
      assert Shown(w.cache, m.id) == Some(m);
      InTimeHolds(w, m.id);
    }
    if messages != [] {
      assert messages[0] in messages;
    }
    forall id | InReach(w, id) ensures w.server.rows[id] in messages {
      var m :| m in messages && m.id == id;
    }
  }

  // ---------- Two runs that fail ----------

  lemma SingleRowPage(row: Row, limit: nat)
    requires 1 <= limit
    ensures FindPage(map[row.id := row], row.group, None, limit).data == [row]
  {
    var rows := map[row.id := row];
    assert row.id in rows && Wanted(rows[row.id], row.group, None);
    assert WantedKeys(rows, row.group, None) == {KeyOf(row)};
    var keys := NewestFirst({KeyOf(row)});
    assert keys[0] in keys;
    assert Take(keys, limit + 1) == keys == [KeyOf(row)];
    WantedKeysName(rows, row.group, None);
    assert FindMany(rows, row.group, None, limit + 1) == [row];
  }

  function OneMessage(at: int): (s: Server)
    ensures Faithful(s)
  {
    ApplyKeepsFaithful(EMPTY_SERVER, Create(0, at, 7, 1, "a", None));
    Apply(EMPTY_SERVER, Create(0, at, 7, 1, "a", None))
  }

  /** A one-message group whose first page has been read, and whose message is edited before it arrives. */
  ghost function EditedWhileFetching(at: int, later: int): (w: World)
    ensures Faithful(w.server)
  {
    var w := Step(Join(OneMessage(at), 7), FetchNext);
    StepKeepsFaithful(w, Serve(Edit(7, 0, 1, "b", later)));
    Step(w, Serve(Edit(7, 0, 1, "b", later)))
  }

  function FirstRow(at: int): Row {
    Row(0, 7, Some(1), USER, at, "a", None, None, None, {})
  }

  lemma OneMessageIs(at: int)
    ensures OneMessage(at) == Server(map[0 := FirstRow(at)], {}, [Created(FirstRow(at))])
  {}

  lemma TableOfOne(row: Row, log: seq<Event>)
    ensures Table(Server(map[row.id := row], {}, log)) == map[row.id := row]
  {}

  lemma FirstPageIs(at: int)
    ensures var row, joined := FirstRow(at), Join(OneMessage(at), 7);
      && joined.server == Server(map[0 := row], {}, [Created(row)])
      && var fetched := Step(joined, FetchNext);
         fetched == joined.(fetching := fetched.fetching, first := 1)
         && fetched.fetching.Some? && fetched.fetching.value.taken == 1 && fetched.fetching.value.page.data == [row]
  {
    var row := FirstRow(at);
    OneMessageIs(at);
    TableOfOne(row, [Created(row)]);
    SingleRowPage(row, PAGE_SIZE);
  }

  lemma EditedWhileFetchingState(at: int, later: int)
    ensures var w := EditedWhileFetching(at, later);
            var row := FirstRow(at);
      && w.server == Server(map[0 := row.(content := "b", editedAt := Some(later))], {},
                            [Created(row), Updated(row.(content := "b", editedAt := Some(later)))])
      && w.cache == EMPTY_CACHE && w.delivered == 1 && w.group == 7
      && w.fetching.Some? && w.fetching.value.taken == 1 && w.fetching.value.page.data == [row]
  {
    var row := FirstRow(at);
    FirstPageIs(at);
    EditOfOneRow(row, later);
  }

  lemma EditOfOneRow(row: Row, later: int)
    requires row.id == 0 && row.group == 7 && row.sender == Some(1) && row.kind == USER && row.deletedAt.None?
    ensures var after := row.(content := "b", editedAt := Some(later));
      Apply(Server(map[0 := row], {}, [Created(row)]), Edit(7, 0, 1, "b", later))
        == Server(map[0 := after], {}, [Created(row), Updated(after)])
  {
    var after := row.(content := "b", editedAt := Some(later));
    assert Enabled(Server(map[0 := row], {}, [Created(row)]), Edit(7, 0, 1, "b", later));
    assert map[0 := row][0 := after] == map[0 := after];
    assert [Created(row)] + [Updated(after)] == [Created(row), Updated(after)];
  }

  lemma OnePageShowsItsRow(page: Page, row: Row)
    requires page.data == [row]
    ensures Shown(Cache([], [page]), row.id) == Some(row)
  {
    assert Loaded([page]) == Loaded([]) + page.data == page.data;
    assert Loaded([page]) + [] == page.data;
  }

  lemma StaleAfterInstall(w: World, row: Row, edited: Row)
    requires w.server == Server(map[row.id := edited], {}, [Created(row), Updated(edited)]) && Faithful(w.server)
    requires w.cache == EMPTY_CACHE && w.delivered == 1 && row.id == edited.id && row != edited
    requires w.fetching.Some? && w.fetching.value.taken == 1 && w.fetching.value.page.data == [row]
    ensures var heard := Step(w, Deliver);
      && heard.server == w.server && !Timely(heard, Install)
      && var end := Step(heard, Install);
         end.server == w.server && end.delivered == 2 && Shown(end.cache, row.id) == Some(row)
  {
    UpdateOfNothing(edited);
    var heard := Step(w, Deliver);
    assert heard == w.(delivered := 2, cache := EMPTY_CACHE);
    OnePageShowsItsRow(w.fetching.value.page, row);
    assert [] + [w.fetching.value.page] == [w.fetching.value.page];
  }

  lemma UpdateOfNothing(m: Row)
    ensures OnEvent(EMPTY_CACHE, Updated(m)) == EMPTY_CACHE
  {}

  /**
   The condition is needed: an edit delivered between the read of a page and its installation is
   lost, and the view stays stale although every event has arrived.
   */
  lemma UntimelyInstallLosesAnEdit(at: int, later: int)
    ensures var heard := Step(EditedWhileFetching(at, later), Deliver);
      && Faithful(heard.server) && !Timely(heard, Install)
      && var end := Step(heard, Install);
         end.delivered == |end.server.log| && 0 in end.server.rows
         && Shown(end.cache, 0).Some? && Shown(end.cache, 0) != Some(end.server.rows[0])
  {
    EditedWhileFetchingState(at, later);
    var row := FirstRow(at);
    StaleAfterInstall(EditedWhileFetching(at, later), row, row.(content := "b", editedAt := Some(later)));
  }

  /**
   The group must stand: its last member leaves in one tab, and another that has heard every event goes
   on showing the messages the cascade took.
   */
  lemma DeletionLeavesTheView(at: int)
    ensures Faithful(OneMessage(at))
    ensures var actions := [FetchNext, Install, Serve(DeleteGroup(7))];
      var w := Run(Join(OneMessage(at), 7), actions);
      && AllTimely(Join(OneMessage(at), 7), actions) && w.delivered == |w.server.log|
      && Shown(w.cache, 0) == Some(FirstRow(at)) && CopyHolds(w, 0) && 0 !in Table(w.server)
  {
    var row, joined := FirstRow(at), Join(OneMessage(at), 7);
    FirstPageIs(at);
    var fetched := Step(joined, FetchNext);
    var installed := Step(fetched, Install);
    var page := fetched.fetching.value.page;
    assert [] + [page] == [page];
    OnePageShowsItsRow(page, row);
    assert installed.readings == [] + [Reading(row, 1, 1)] == [Reading(row, 1, 1)];
    var end := Step(installed, Serve(DeleteGroup(7)));
    ThreeSteps(joined, FetchNext, Install, Serve(DeleteGroup(7)));
  }

  lemma OneStep(w: World, a: Action, rest: seq<Action>)
    requires Faithful(w.server)
    ensures Faithful(Step(w, a).server) && Run(w, [a] + rest) == Run(Step(w, a), rest)
    ensures AllTimely(w, [a] + rest) <==> Timely(w, a) && AllTimely(Step(w, a), rest)
  {
    StepKeepsFaithful(w, a);
    assert ([a] + rest)[1..] == rest;
  }

  lemma ThreeSteps(w: World, a: Action, b: Action, c: Action)
    requires Faithful(w.server) && !a.Serve? && !b.Serve?
    ensures Faithful(Step(w, a).server) && Faithful(Step(Step(w, a), b).server)
    ensures Run(w, [a, b, c]) == Step(Step(Step(w, a), b), c)
    ensures AllTimely(w, [a, b, c]) <==> Timely(w, a) && Timely(Step(w, a), b) && Timely(Step(Step(w, a), b), c)
  {
    assert [a, b, c] == [a] + [b, c] && [b, c] == [b] + [c] && [c] == [c] + [];
    OneStep(w, a, [b, c]);
    OneStep(Step(w, a), b, [c]);
    OneStep(Step(Step(w, a), b), c, []);
  }
}
