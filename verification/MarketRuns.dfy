/** The catalog over whole runs of publishing, rating and installing: what every run
    keeps while a kind's listings fit one lookup, and a run in which they do not. */
module MarketRuns {
  import opened Basics
  import opened Marketplace

  /** The catalog's entries and the agents through a run, with how many installs went
      through. */
  datatype History = History(entries: seq<Entry>, agents: map<string, Agent>, installed: nat)

  datatype Op =
    | DoPublish(kind: Kind, ref: string, visibility: Visibility, groups: seq<string>, newId: string)
    | DoRate(id: string, stars: real)
    | DoInstall(id: string, target: string)

  /** An operation that went through. A new id is fresh, and a rating is in range. */
  ghost predicate Enabled(h: History, op: Op)
  {
    match op
    case DoPublish(kind, ref, _, _, newId) =>
      (forall e :: e in h.entries ==> e.id != newId) && (kind == AgentKind ==> ref in h.agents)
    case DoRate(id, stars) => Get(h.entries, id).Some? && 1.0 <= stars <= 5.0
    case DoInstall(id, target) => InstallOutcome(h.entries, h.agents, id, target) == Done
  }

  ghost function After(h: History, op: Op, plugins: map<string, Plugin>): History
    requires Enabled(h, op)
  {
    match op
    case DoPublish(kind, ref, visibility, groups, newId) =>
      History(Put(h.entries, Published(h.entries, kind, ref, visibility, groups, newId)),
              if kind == AgentKind then h.agents[ref := h.agents[ref].(published := true)] else h.agents,
              h.installed)
    case DoRate(id, stars) =>
      var e := Get(h.entries, id).value;
      h.(entries := Put(h.entries, e.(ratingSum := e.ratingSum + stars, ratingCount := e.ratingCount + 1)))
    case DoInstall(id, target) =>
      var e := Get(h.entries, id).value;
      History(Put(h.entries, e.(installs := e.installs + 1)), Installed(h.agents, e, target, plugins), h.installed + 1)
  }

  /** Ids once, ratings within bounds, installs counted, each object listed once, and no
      agent's list with a repetition. */
  ghost predicate Kept(h: History)
  {
    Sane(h.entries) && OneListing(h.entries) && TotalInstalls(h.entries) == h.installed && AllTidy(h.agents)
  }

  /** No kind has more listings than one lookup reads. */
  ghost predicate Roomy(h: History)
  {
    forall kind :: |OfKind(h.entries, kind)| <= 2000
  }

  lemma PutSameKeepsOneListing(entries: seq<Entry>, id: string, e: Entry)
    requires OneId(entries) && OneListing(entries) && Get(entries, id).Some?
    requires var was := Get(entries, id).value; e.id == was.id && e.kind == was.kind && e.ref == was.ref
    ensures OneListing(Put(entries, e))
  {
    GetMeans(entries, id);
    var was := Get(entries, id).value;
    forall x, y | x in Put(entries, e) && y in Put(entries, e) && x.kind == y.kind && x.ref == y.ref ensures x == y {
    }
  }

  /** Writing an entry again with the same object. */
  lemma RewriteKeeps(h: History, id: string, e: Entry, agents: map<string, Agent>, installed: nat)
    requires Kept(h) && Get(h.entries, id).Some? && Rated(e) && AllTidy(agents)
    requires var was := Get(h.entries, id).value;
             && e.id == was.id && e.kind == was.kind && e.ref == was.ref
             && installed == h.installed + e.installs - was.installs
    ensures Kept(History(Put(h.entries, e), agents, installed))
  {
    GetMeans(h.entries, id);
    hide Put, OneListing, AllTidy;
    PutKeepsSane(h.entries, e);
    PutInstalls(h.entries, e);
    PutSameKeepsOneListing(h.entries, id, e);
  }

  lemma GotIsRated(entries: seq<Entry>, id: string)
    requires Sane(entries) && Get(entries, id).Some?
    ensures Rated(Get(entries, id).value)
  {
    GetMeans(entries, id);
  }

  lemma PublishKeeps(h: History, op: Op, plugins: map<string, Plugin>)
    requires Kept(h) && Roomy(h) && Enabled(h, op) && op.DoPublish?
    ensures Kept(After(h, op, plugins))
  {
    var e := Published(h.entries, op.kind, op.ref, op.visibility, op.groups, op.newId);
    PublishedFits(h.entries, op.kind, op.ref, op.visibility, op.groups, op.newId);
    PutKeepsSane(h.entries, e);
    PutInstalls(h.entries, e);
    FoundWithinLimit(h.entries, op.kind, op.ref);
    PublishKeepsOneListingExactly(h.entries, op.kind, op.ref, op.visibility, op.groups, op.newId);
    hide Put, Published, Get, Sane, OneListing;
  }

  lemma RatedMore(e: Entry, stars: real)
    requires Rated(e) && 1.0 <= stars <= 5.0
    ensures Rated(e.(ratingSum := e.ratingSum + stars, ratingCount := e.ratingCount + 1))
  {
  }

  lemma RateKeeps(h: History, op: Op, plugins: map<string, Plugin>)
    requires Kept(h) && Enabled(h, op) && op.DoRate?
    ensures Kept(After(h, op, plugins))
  {
    hide Put, Kept, Get, Rated, Published, InstallOutcome, AllTidy;
    var was := Get(h.entries, op.id).value;
    KeptAgents(h);
    GotIsRated(h.entries, op.id);
    RatedMore(was, op.stars);
    var e := was.(ratingSum := was.ratingSum + op.stars, ratingCount := was.ratingCount + 1);
    RewriteKeeps(h, op.id, e, h.agents, h.installed);
  }

  lemma KeptAgents(h: History)
    requires Kept(h)
    ensures AllTidy(h.agents) && Sane(h.entries)
  {
  }

  lemma InstallKeeps(h: History, op: Op, plugins: map<string, Plugin>)
    requires Kept(h) && Enabled(h, op) && op.DoInstall?
    ensures Kept(After(h, op, plugins))
  {
    hide Put, Kept, Get, Rated, Installed, Published, AllTidy, Entitled;
    var was := Get(h.entries, op.id).value;
    KeptAgents(h);
    GotIsRated(h.entries, op.id);
    InstallRewrites(h, op.id, op.target, was, plugins);
  }

  lemma InstallRewrites(h: History, id: string, target: string, was: Entry, plugins: map<string, Plugin>)
    requires Kept(h) && Get(h.entries, id) == Some(was) && Rated(was)
    requires target in h.agents && (was.kind == AgentKind ==> was.ref in h.agents)
    ensures Kept(History(Put(h.entries, was.(installs := was.installs + 1)),
                         Installed(h.agents, was, target, plugins), h.installed + 1))
  {
    AttachedAllTidy(h.agents, was, target, plugins);
    hide Put, Kept, Get, Installed, AllTidy;
    RewriteKeeps(h, id, was.(installs := was.installs + 1), Installed(h.agents, was, target, plugins), h.installed + 1);
  }

  lemma StepKeeps(h: History, op: Op, plugins: map<string, Plugin>)
    requires Kept(h) && Roomy(h) && Enabled(h, op)
    ensures Kept(After(h, op, plugins))
  {
    match op
    case DoPublish(_, _, _, _, _) => PublishKeeps(h, op, plugins);
    case DoRate(_, _) => RateKeeps(h, op, plugins);
    case DoInstall(_, _) => InstallKeeps(h, op, plugins);
  }

  ghost predicate MayRun(h: History, ops: seq<Op>, plugins: map<string, Plugin>)
    decreases |ops|
  {
    ops == [] || (Roomy(h) && Enabled(h, ops[0]) && MayRun(After(h, ops[0], plugins), ops[1..], plugins))
  }

  ghost function Run(h: History, ops: seq<Op>, plugins: map<string, Plugin>): History
    requires MayRun(h, ops, plugins)
    decreases |ops|
  {
    if ops == [] then h else Run(After(h, ops[0], plugins), ops[1..], plugins)
  }

  /** Through any run, while each kind's listings fit one lookup: one entry for an
      object, ratings in bounds, total installs the installs that went through, and no
      repetition in any agent's lists. */
  lemma {:induction false} RunKeeps(h: History, ops: seq<Op>, plugins: map<string, Plugin>)
    requires Kept(h) && MayRun(h, ops, plugins)
    ensures Kept(Run(h, ops, plugins))
    decreases |ops|
  {
    if ops != [] {
      StepKeeps(h, ops[0], plugins);
      RunKeeps(After(h, ops[0], plugins), ops[1..], plugins);
    }
  }

  // ---- a run past the lookup's limit -----------------------------------------------------------

  /** A name of so many letters. */
  function Xs(n: nat): (s: string)
    ensures |s| == n
  {
    seq(n, _ => 'x')
  }

  function Item(k: nat): Entry
  {
    Entry(Xs(k), SkillKind, Xs(k), Public, [], 0, 0.0, 0)
  }

  /** The listings after publishing that many skills, the last one first. */
  function Shelf(n: nat): (entries: seq<Entry>)
    ensures |entries| == n && forall i :: 0 <= i < n ==> entries[i] == Item(n - i)
  {
    seq(n, i requires 0 <= i < n => Item(n - i))
  }

  /** Publishing the skills numbered above `k` up to `n`. */
  function Publishes(k: nat, n: nat): seq<Op>
    requires k <= n
    decreases n - k
  {
    if k == n then []
    else [DoPublish(SkillKind, Xs(k + 1), Public, [], Xs(k + 1))] + Publishes(k + 1, n)
  }

  lemma {:induction false} AllOfKind(entries: seq<Entry>, kind: Kind)
    requires forall e :: e in entries ==> e.kind == kind
    ensures OfKind(entries, kind) == entries
    ensures forall k :: k != kind ==> OfKind(entries, k) == []
  {
    if entries != [] {
      assert entries[0] in entries;
      AllOfKind(entries[1..], kind);
      assert entries == [entries[0]] + entries[1..];
    }
  }

  lemma ShelfIsRoomy(k: nat)
    requires k <= LOOKUP_LIMIT
    ensures forall kind :: |OfKind(Shelf(k), kind)| <= LOOKUP_LIMIT
  {
    forall e | e in Shelf(k) ensures e.kind == SkillKind {
      var i :| 0 <= i < k && Shelf(k)[i] == e;
    }
    AllOfKind(Shelf(k), SkillKind);
  }

  lemma NotYetOnTheShelf(k: nat)
    ensures EntryFor(Shelf(k), SkillKind, Xs(k + 1)) == None && Dropped(Shelf(k), Xs(k + 1)) == Shelf(k)
    ensures forall e :: e in Shelf(k) ==> e.id != Xs(k + 1)
  {
    var entries := Shelf(k);
    forall e | e in entries ensures |e.ref| <= k && |e.id| <= k {
      var i :| 0 <= i < k && entries[i] == e;
    }
    DroppedAbsent(entries, Xs(k + 1));
    forall e | e in Listing(entries, SkillKind, LOOKUP_LIMIT) ensures e.ref != Xs(k + 1) {
      assert e in OfKind(entries, SkillKind);
    }
  }

  lemma OneMoreOnTheShelf(k: nat, agents: map<string, Agent>, plugins: map<string, Plugin>)
    requires k <= LOOKUP_LIMIT
    ensures var h, op := History(Shelf(k), agents, 0), DoPublish(SkillKind, Xs(k + 1), Public, [], Xs(k + 1));
            Roomy(h) && Enabled(h, op) && After(h, op, plugins) == History(Shelf(k + 1), agents, 0)
  {
    hide EntryFor, Dropped, OfKind, Xs;
    ShelfIsRoomy(k);
    NotYetOnTheShelf(k);
    assert Shelf(k + 1) == [Item(k + 1)] + Shelf(k);
  }

  lemma {:induction false} ShelfIsReached(k: nat, n: nat, agents: map<string, Agent>, plugins: map<string, Plugin>)
    requires k <= n <= 2001
    ensures var h := History(Shelf(k), agents, 0);
            MayRun(h, Publishes(k, n), plugins) && Run(h, Publishes(k, n), plugins) == History(Shelf(n), agents, 0)
    decreases n - k
  {
    if k < n {
      hide Roomy, Enabled, After, Shelf;
      var op := DoPublish(SkillKind, Xs(k + 1), Public, [], Xs(k + 1));
      OneMoreOnTheShelf(k, agents, plugins);
      ShelfIsReached(k + 1, n, agents, plugins);
      assert Publishes(k, n) == [op] + Publishes(k + 1, n);
      assert Publishes(k, n)[1..] == Publishes(k + 1, n);
    }
  }

  lemma OldestPublishedAgain(n: nat, agents: map<string, Agent>, plugins: map<string, Plugin>, newId: string)
    requires n == 2001 && |newId| > n
    ensures var h, op := History(Shelf(n), agents, 0), DoPublish(SkillKind, Xs(1), Public, [], newId);
            Enabled(h, op) && !OneListing(After(h, op, plugins).entries)
  {
    hide OneListing, OneId, EntryFor, Shelf, Listed, Put, Published, Xs;
    OldestIsNotFound(n);
    ShelfIsDistinct(n);
    PublishKeepsOneListingExactly(Shelf(n), SkillKind, Xs(1), Public, [], newId);
  }

  /** One skill more than a lookup reads is published, each a first time, and then the
      oldest once more: it is listed twice. */
  lemma OldestIsListedTwice(n: nat, agents: map<string, Agent>, plugins: map<string, Plugin>, newId: string)
    requires n == 2001 && |newId| > n
    ensures MayRun(History([], agents, 0), Publishes(0, n), plugins)
    ensures var h := Run(History([], agents, 0), Publishes(0, n), plugins);
            Enabled(h, DoPublish(SkillKind, Xs(1), Public, [], newId))
            && !OneListing(After(h, DoPublish(SkillKind, Xs(1), Public, [], newId), plugins).entries)
  {
    hide OneListing, Publishes, MayRun, Run, Enabled, After, Xs;
    assert Shelf(0) == [];
    ShelfIsReached(0, n, agents, plugins);
    OldestPublishedAgain(n, agents, plugins, newId);
  }

  lemma ShelfIsDistinct(n: nat)
    ensures OneId(Shelf(n)) && OneListing(Shelf(n)) && forall e :: e in Shelf(n) ==> |e.id| <= n
  {
    forall i, j | 0 <= i < j < n ensures Shelf(n)[i].id != Shelf(n)[j].id {
      assert |Shelf(n)[i].id| == n - i && |Shelf(n)[j].id| == n - j;
    }
    forall e, f | e in Shelf(n) && f in Shelf(n) && e.ref == f.ref ensures e == f {
      var i :| 0 <= i < n && Shelf(n)[i] == e;
      var j :| 0 <= j < n && Shelf(n)[j] == f;
      assert |e.ref| == n - i && |f.ref| == n - j;
    }
  }

  lemma OldestIsNotFound(n: nat)
    requires n == 2001
    ensures Listed(Shelf(n), SkillKind, Xs(1)) && EntryFor(Shelf(n), SkillKind, Xs(1)) == None
  {
    hide OfKind;
    var entries := Shelf(n);
    forall e | e in entries ensures e.kind == SkillKind {
      var i :| 0 <= i < n && entries[i] == e;
    }
    AllOfKind(entries, SkillKind);
    assert entries[n - 1] == Item(1) && entries[n - 1] in entries;
    FirstRowsAreNewer(n);
  }

  lemma FirstRowsAreNewer(n: nat)
    requires n == 2001
    ensures forall e :: e in Shelf(n)[..LOOKUP_LIMIT] ==> e.ref != Xs(1)
  {
    var rows := Shelf(n)[..LOOKUP_LIMIT];
    forall e | e in rows ensures e.ref != Xs(1) {
      var i :| 0 <= i < |rows| && rows[i] == e;
      assert e == Item(n - i) && |e.ref| == n - i;
    }
  }
}
