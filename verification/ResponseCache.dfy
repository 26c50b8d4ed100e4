/** The response cache (app/chat/response_cache.py): answers with a time to live, and a reverse index
  from documents to cache keys that makes invalidation precise. Store and invalidate are atomic here. */
module ResponseCache {
  import opened Common

  datatype Payload = Payload(events: seq<string>, answer: string)

  /** A question asked against a set of documents; `question` is already normalized. */
  datatype Request = Request(tenant: string, question: string, mode: string, docs: seq<string>)

  /** What the hashed key identifies: sorting makes the order of the documents irrelevant. */
  datatype Key = Key(tenant: string, question: string, mode: string, docs: multiset<string>)

  datatype Entry = Entry(payload: Payload, expires: int)

  datatype Listing = Listing(keys: set<Key>, expires: int)

  datatype Cache = Cache(entries: map<Key, Entry>, index: map<string, Listing>)

  const ALL := "__all__"

  const EMPTY := Cache(map[], map[])

  // ---------------------------------------------------------------- keys

  /** Joining a lone empty document id gives the same text as joining none. */
  function BuildCacheKey(r: Request): Key {
    Key(if r.tenant == "" then "default" else r.tenant, r.question, r.mode,
        if r.docs == [""] then multiset{} else multiset(r.docs))
  }

  predicate IsCacheable(mode: string, hasHistory: bool) { (mode == "auto" || mode == "retrieval") && !hasHistory }

  /** The index sets a key belongs in. An empty document id is skipped. */
  function ListedUnder(k: Key): set<string> {
    if k.docs == multiset{} then {ALL} else set d | d in k.docs && d != ""
  }

  /** The index sets a store lists its key in: none at all for a lone empty document id. */
  function IndexedUnder(r: Request): set<string> {
    if r.docs == [] then {ALL} else set d | d in r.docs && d != ""
  }

  lemma IndexedWhereListed(r: Request)
    ensures IndexedUnder(r) == if r.docs == [""] then {} else ListedUnder(BuildCacheKey(r))
  {
    if r.docs != [] {
      assert r.docs[0] in multiset(r.docs);
    }
  }

  // ---------------------------------------------------------------- operations

  predicate Live(c: Cache, k: Key, now: int) { k in c.entries && now < c.entries[k].expires }

  /** The unexpired members of an index set. */
  function Members(index: map<string, Listing>, d: string, now: int): set<Key> {
    if d in index && now < index[d].expires then index[d].keys else {}
  }

  /** sadd, then expire */
  function Add(index: map<string, Listing>, d: string, k: Key, now: int, deadline: int): map<string, Listing> {
    index[d := Listing(Members(index, d, now) + {k}, deadline)]
  }

  function AddAll(index: map<string, Listing>, docs: seq<string>, k: Key, now: int, deadline: int)
    : map<string, Listing>
  {
    if docs == [] then index
    else
      var rest, d := AddAll(index, docs[..|docs|-1], k, now, deadline), docs[|docs|-1];
      if d == "" then rest else Add(rest, d, k, now, deadline)
  }

  function Put(c: Cache, r: Request, payload: Payload, hasHistory: bool, ttl: int, now: int): Cache {
    if !IsCacheable(r.mode, hasHistory) || ttl <= 0 then c
    else
      var k := BuildCacheKey(r);
      Cache(c.entries[k := Entry(payload, now + ttl)],
            if r.docs == [] then Add(c.index, ALL, k, now, now + ttl) else AddAll(c.index, r.docs, k, now, now + ttl))
  }

  function Get(c: Cache, r: Request, hasHistory: bool, now: int): Option<Payload> {
    var k := BuildCacheKey(r);
    if IsCacheable(r.mode, hasHistory) && Live(c, k, now) && c.entries[k].payload.events != [] then
      Some(c.entries[k].payload)
    else None
  }

  /** The entries' keys that a scan finds, and the documents whose index sets it finds. */
  function LiveEntries(c: Cache, now: int): set<Key> { set k | k in c.entries && now < c.entries[k].expires }

  function LiveListings(c: Cache, now: int): set<string> { set d | d in c.index && now < c.index[d].expires }

  /** The keys an invalidation of document d deletes. */
  function Doomed(c: Cache, d: string, now: int): set<Key> { Members(c.index, d, now) + Members(c.index, ALL, now) }

  function Drop(c: Cache, doc: Option<string>, now: int): Cache {
    if doc.None? || doc.value == "" then EMPTY
    else Cache(c.entries - Doomed(c, doc.value, now), c.index - {doc.value, ALL})
  }

  class ResponseCache {
    var entries: map<Key, Entry>
    var index: map<string, Listing>

    ghost function View(): Cache
      reads this
    {
      Cache(entries, index)
    }

    constructor ()
      ensures View() == EMPTY
    {
      entries, index := map[], map[];
    }

    method Lookup(r: Request, hasHistory: bool, now: int) returns (hit: Option<Payload>)
      ensures hit == Get(View(), r, hasHistory, now)
    {
      if !IsCacheable(r.mode, hasHistory) {
        return None;
      }
      var k := BuildCacheKey(r);
      if k !in entries || entries[k].expires <= now {
        return None;
      }
      if entries[k].payload.events == [] {
        return None;
      }
      return Some(entries[k].payload);
    }

    method Store(r: Request, payload: Payload, hasHistory: bool, ttl: int, now: int)
      modifies this
      ensures View() == Put(old(View()), r, payload, hasHistory, ttl, now)
    {
      if !IsCacheable(r.mode, hasHistory) || ttl <= 0 {
        return;
      }
      var k := BuildCacheKey(r);
      entries := entries[k := Entry(payload, now + ttl)];
      if r.docs == [] {
        index := Add(index, ALL, k, now, now + ttl);
        return;
      }
      for i := 0 to |r.docs|
        invariant entries == old(entries)[k := Entry(payload, now + ttl)]
        invariant index == AddAll(old(index), r.docs[..i], k, now, now + ttl)
      {
        assert r.docs[..i+1][..i] == r.docs[..i];
        if r.docs[i] != "" {
          index := Add(index, r.docs[i], k, now, now + ttl);
        }
      }
      assert r.docs[..|r.docs|] == r.docs;
    }

    /** Returns how many listed keys were deleted for a given document, or how many unexpired keys, of entries
      and of index sets, a full clear finds and deletes. */
    method InvalidateCache(doc: Option<string>, now: int) returns (deleted: nat)
      modifies this
      ensures View() == Drop(old(View()), doc, now)
      ensures deleted ==
        if doc.Some? && doc.value != "" then |Doomed(old(View()), doc.value, now)|
        else |LiveEntries(old(View()), now)| + |LiveListings(old(View()), now)|
    {
      if doc.None? || doc.value == "" {
        var answers := set k | k in entries && now < entries[k].expires;
        var listings := set d | d in index && now < index[d].expires;
        assert answers == LiveEntries(View(), now) && listings == LiveListings(View(), now);
        deleted := |answers| + |listings|;
        entries, index := map[], map[];
        return;
      }
      var keysToDelete := Members(index, doc.value, now);
      keysToDelete := keysToDelete + Members(index, ALL, now);
      entries := entries - keysToDelete;
      index := index - {doc.value, ALL};
      deleted := |keysToDelete|;
    }
  }

  // ---------------------------------------------------------------- the index stays aligned

  ghost predicate ListedFor(c: Cache, k: Key, d: string)
    requires k in c.entries
  {
    d in c.index && k in c.index[d].keys && c.entries[k].expires <= c.index[d].expires
  }

  /** Every live entry is listed wherever it belongs, and no listing expires before it. */
  ghost predicate Aligned(c: Cache, now: int) {
    forall k, d :: Live(c, k, now) && d in ListedUnder(k) ==> ListedFor(c, k, d)
  }

  /** Nothing is listed where it does not belong. */
  ghost predicate Precise(c: Cache) {
    forall d, k :: d in c.index && k in c.index[d].keys ==> d in ListedUnder(k)
  }

  ghost predicate Inv(c: Cache, now: int) { Aligned(c, now) && Precise(c) }

  lemma {:induction false} AddAllAt(index: map<string, Listing>, docs: seq<string>, k: Key, now: int, deadline: int)
    requires now < deadline
    ensures var index' := AddAll(index, docs, k, now, deadline);
      && (forall d :: d in docs && d != "" ==>
           d in index' && index'[d] == Listing(Members(index, d, now) + {k}, deadline))
      && (forall d :: d !in docs || d == "" ==>
           (d in index' <==> d in index) && (d in index ==> index'[d] == index[d]))
  {
    if docs != [] {
      AddAllAt(index, docs[..|docs|-1], k, now, deadline);
      assert docs == docs[..|docs|-1] + [docs[|docs|-1]];
    }
  }

  /** The entries and listings after a store, in terms of its key and the index sets it lists it in. */
  ghost predicate Puts(c: Cache, c': Cache, k: Key, e: Entry, indexed: set<string>, now: int) {
    && c'.entries == c.entries[k := e]
    && (forall d :: d in indexed ==>
         d in c'.index && c'.index[d] == Listing(Members(c.index, d, now) + {k}, e.expires))
    && (forall d :: d !in indexed ==>
         (d in c'.index <==> d in c.index) && (d in c.index ==> c'.index[d] == c.index[d]))
  }

  /** A store touches exactly the index sets of its documents. */
  lemma PutIndex(c: Cache, r: Request, payload: Payload, ttl: int, now: int)
    requires IsCacheable(r.mode, false) && ttl > 0
    ensures Puts(c, Put(c, r, payload, false, ttl, now), BuildCacheKey(r), Entry(payload, now + ttl),
                 IndexedUnder(r), now)
  {
    if r.docs != [] {
      AddAllAt(c.index, r.docs, BuildCacheKey(r), now, now + ttl);
    }
  }

  /** No live entry that shares an index set with the store outlives its deadline; and a store with a lone
    empty document id, which lists nothing, finds its key listed with the global answers for long enough. */
  ghost predicate Undisturbed(c: Cache, r: Request, now: int, deadline: int) {
    var k := BuildCacheKey(r);
    && (forall x :: Live(c, x, now) && x != k && ListedUnder(x) * IndexedUnder(r) != {} ==>
         c.entries[x].expires <= deadline)
    && (r.docs == [""] ==> ALL in c.index && k in c.index[ALL].keys && deadline <= c.index[ALL].expires)
  }

  lemma BlankIsGlobal(r: Request)
    requires r.docs == [""]
    ensures ListedUnder(BuildCacheKey(r)) == {ALL}
  {
  }

  /** A listing expiring before an older entry, or no listing at all, breaks alignment. */
  lemma AlignedNeedsUndisturbed(c: Cache, c': Cache, r: Request, e: Entry, now: int)
    requires Puts(c, c', BuildCacheKey(r), e, IndexedUnder(r), now) && now < e.expires && Aligned(c', now)
    ensures Undisturbed(c, r, now, e.expires)
  {
    var k := BuildCacheKey(r);
    IndexedWhereListed(r);
    forall x | Live(c, x, now) && x != k && ListedUnder(x) * IndexedUnder(r) != {}
      ensures c.entries[x].expires <= e.expires
    {
      var d :| d in ListedUnder(x) * IndexedUnder(r);
      assert Live(c', x, now) && ListedFor(c', x, d);
    }
    if r.docs == [""] {
      BlankIsGlobal(r);
      assert Live(c', k, now) && ListedFor(c', k, ALL);
    }
  }

  lemma UndisturbedKeepsAligned(c: Cache, c': Cache, r: Request, e: Entry, now: int)
    requires Puts(c, c', BuildCacheKey(r), e, IndexedUnder(r), now)
    requires Aligned(c, now) && Undisturbed(c, r, now, e.expires)
    ensures Aligned(c', now)
  {
    var k := BuildCacheKey(r);
    IndexedWhereListed(r);
    hide BuildCacheKey, IndexedUnder;
    forall x, d | Live(c', x, now) && d in ListedUnder(x) ensures ListedFor(c', x, d) {
      if x != k {
        assert Live(c, x, now) && ListedFor(c, x, d);
        assert d in IndexedUnder(r) ==> d in ListedUnder(x) * IndexedUnder(r);
      } else if r.docs == [""] {
        BlankIsGlobal(r);
      }
    }
  }

  /** Storing keeps the index aligned exactly when it is undisturbed: a store with a shorter deadline would
    cut the older entries' listing short. */
  lemma StoreKeepsAlignedIff(c: Cache, r: Request, payload: Payload, ttl: int, now: int)
    requires IsCacheable(r.mode, false) && ttl > 0 && Aligned(c, now)
    ensures Aligned(Put(c, r, payload, false, ttl, now), now) <==> Undisturbed(c, r, now, now + ttl)
  {
    var c', e := Put(c, r, payload, false, ttl, now), Entry(payload, now + ttl);
    PutIndex(c, r, payload, ttl, now);
    hide Put, Aligned, Undisturbed, Puts;
    if Aligned(c', now) {
      AlignedNeedsUndisturbed(c, c', r, e, now);
    }
    if Undisturbed(c, r, now, now + ttl) {
      UndisturbedKeepsAligned(c, c', r, e, now);
    }
  }

  lemma PutKeepsPrecise(c: Cache, r: Request, payload: Payload, ttl: int, now: int)
    requires IsCacheable(r.mode, false) && ttl > 0 && Precise(c)
    ensures Precise(Put(c, r, payload, false, ttl, now))
  {
    PutIndex(c, r, payload, ttl, now);
    IndexedWhereListed(r);
    hide Put, BuildCacheKey, IndexedUnder, ListedUnder;
  }

  lemma PutKeepsInv(c: Cache, r: Request, payload: Payload, hasHistory: bool, ttl: int, now: int)
    requires Inv(c, now)
    requires IsCacheable(r.mode, hasHistory) && ttl > 0 ==> Undisturbed(c, r, now, now + ttl)
    ensures Inv(Put(c, r, payload, hasHistory, ttl, now), now)
  {
    if IsCacheable(r.mode, hasHistory) && ttl > 0 {
      PutKeepsPrecise(c, r, payload, ttl, now);
      StoreKeepsAlignedIff(c, r, payload, ttl, now);
      hide Aligned, Undisturbed, Precise;
    }
  }

  lemma TimePasses(c: Cache, now: int, later: int)
    requires Inv(c, now) && now <= later
    ensures Inv(c, later)
  {
  }

  /** Whether an invalidation of d removes an entry: it uses d, or is a whole-library answer. */
  predicate Hits(d: string, k: Key) { d in ListedUnder(k) || ALL in ListedUnder(k) }

  /** Of the live entries, an invalidation deletes exactly those it should. */
  lemma DropIsExact(c: Cache, d: string, now: int, k: Key)
    requires Inv(c, now) && d != "" && Live(c, k, now)
    ensures k in Doomed(c, d, now) <==> Hits(d, k)
  {
    if d in ListedUnder(k) {
      assert ListedFor(c, k, d);
    }
    if ALL in ListedUnder(k) {
      assert ListedFor(c, k, ALL);
    }
  }

  lemma DropKeepsInv(c: Cache, doc: Option<string>, now: int)
    requires Inv(c, now)
    ensures Inv(Drop(c, doc, now), now)
  {
    if doc.Some? && doc.value != "" {
      var c' := Drop(c, doc, now);
      forall k, d | Live(c', k, now) && d in ListedUnder(k) ensures ListedFor(c', k, d) {
        DropIsExact(c, doc.value, now, k);
        assert ListedFor(c, k, d);
      }
    }
  }

  // ---------------------------------------------------------------- alignment is what invalidation needs

  /** From now on, as long as nothing is stored, every index set finds every live entry it should. */
  ghost predicate FindsAll(c: Cache, now: int) {
    forall k, d, at :: at >= now && d in ListedUnder(k) && Live(c, k, at) ==> k in Members(c.index, d, at)
  }

  /** From now on, as long as nothing is stored, every invalidation deletes every live entry it should. */
  ghost predicate Complete(c: Cache, now: int) {
    forall k, d, at :: at >= now && d != "" && Hits(d, k) && Live(c, k, at) ==> k in Doomed(c, d, at)
  }

  /** The decisive moment is the one at which a listing expires. */
  lemma AlignedIffFindsAll(c: Cache, now: int)
    ensures Aligned(c, now) <==> FindsAll(c, now)
  {
    if FindsAll(c, now) {
      forall k, d | Live(c, k, now) && d in ListedUnder(k) ensures ListedFor(c, k, d) {
        assert k in Members(c.index, d, now);
        if c.index[d].expires < c.entries[k].expires {
          assert Live(c, k, c.index[d].expires);
        }
      }
    }
    if Aligned(c, now) {
      forall k, d, at | at >= now && d in ListedUnder(k) && Live(c, k, at) ensures k in Members(c.index, d, at) {
        assert ListedFor(c, k, d);
      }
    }
  }

  /** The same for invalidation itself, unless a document has the name reserved for global answers. */
  lemma AlignedIffComplete(c: Cache, now: int)
    requires Precise(c) && forall k :: k in c.entries ==> ALL !in k.docs
    ensures Aligned(c, now) <==> Complete(c, now)
  {
    AlignedIffFindsAll(c, now);
    if FindsAll(c, now) {
      forall k, d, at | at >= now && d != "" && Hits(d, k) && Live(c, k, at) ensures k in Doomed(c, d, at) {
        assert d in ListedUnder(k) ==> k in Members(c.index, d, at);
        assert ALL in ListedUnder(k) ==> k in Members(c.index, ALL, at);
      }
    }
    if Complete(c, now) {
      forall k, d, at | at >= now && d in ListedUnder(k) && Live(c, k, at) ensures k in Members(c.index, d, at) {
        assert Hits(d, k) && k in Doomed(c, d, at);
      }
    }
  }

  /** After a store, every later invalidation up to the next store finds all it should if and only if the
    store was undisturbed. */
  lemma StoreKeepsCompleteIff(c: Cache, r: Request, payload: Payload, ttl: int, now: int)
    requires Inv(c, now) && IsCacheable(r.mode, false) && ttl > 0
    requires ALL !in r.docs && forall k :: k in c.entries ==> ALL !in k.docs
    ensures Complete(Put(c, r, payload, false, ttl, now), now) <==> Undisturbed(c, r, now, now + ttl)
  {
    PutKeepsPrecise(c, r, payload, ttl, now);
    StoreKeepsAlignedIff(c, r, payload, ttl, now);
    PutIndex(c, r, payload, ttl, now);
    AlignedIffComplete(Put(c, r, payload, false, ttl, now), now);
  }

  // ---------------------------------------------------------------- runs, against the event log

  /** Every store brings its own time to live: the setting may change between stores. */
  datatype Event =
    | Stored(r: Request, payload: Payload, hasHistory: bool, ttl: int, at: int)
    | Invalidated(doc: Option<string>, at: int)

  predicate Writes(ev: Event) { ev.Stored? && IsCacheable(ev.r.mode, ev.hasHistory) && ev.ttl > 0 }

  function Step(c: Cache, ev: Event): Cache {
    match ev
    case Stored(r, payload, hasHistory, ttl, at) => Put(c, r, payload, hasHistory, ttl, at)
    case Invalidated(doc, at) => Drop(c, doc, at)
  }

  function Exec(log: seq<Event>): Cache {
    if log == [] then EMPTY else Step(Exec(log[..|log|-1]), log[|log|-1])
  }

  ghost predicate Timed(log: seq<Event>) { forall i, j :: 0 <= i <= j < |log| ==> log[i].at <= log[j].at }

  ghost predicate OrderlyAt(c: Cache, ev: Event) {
    Writes(ev) ==> Undisturbed(c, ev.r, ev.at, ev.at + ev.ttl)
  }

  /** Every store is undisturbed at its time. */
  ghost predicate Orderly(log: seq<Event>) { forall i :: 0 <= i < |log| ==> OrderlyAt(Exec(log[..i]), log[i]) }

  /** The stores' deadlines never go back, as with one time to live for all; and none has a lone empty
    document id. */
  ghost predicate Steady(log: seq<Event>) {
    && (forall i, j :: 0 <= i <= j < |log| && Writes(log[i]) && Writes(log[j]) ==>
         log[i].at + log[i].ttl <= log[j].at + log[j].ttl)
    && (forall i :: 0 <= i < |log| && Writes(log[i]) ==> log[i].r.docs != [""])
  }

  /** Every entry was written by a store of the log. */
  lemma {:induction false} EntryWasStored(log: seq<Event>, k: Key) returns (i: nat)
    requires k in Exec(log).entries
    ensures i < |log| && Writes(log[i]) && Exec(log).entries[k].expires == log[i].at + log[i].ttl
  {
    var init, last := log[..|log|-1], log[|log|-1];
    if Writes(last) && BuildCacheKey(last.r) == k {
      i := |log| - 1;
    } else {
      i := EntryWasStored(init, k);
    }
  }

  /** What a caller can see from the times alone: stores whose deadlines never go back are orderly. */
  lemma SteadyIsOrderly(log: seq<Event>)
    requires Steady(log)
    ensures Orderly(log)
  {
    forall j | 0 <= j < |log| && Writes(log[j]) ensures OrderlyAt(Exec(log[..j]), log[j]) {
      var c, deadline := Exec(log[..j]), log[j].at + log[j].ttl;
      forall x | Live(c, x, log[j].at) ensures c.entries[x].expires <= deadline {
        var i := EntryWasStored(log[..j], x);
        assert log[..j][i] == log[i];
      }
    }
  }

  lemma OneTtlIsSteady(log: seq<Event>, ttl: int)
    requires Timed(log) && forall ev :: ev in log && ev.Stored? ==> ev.ttl == ttl && ev.r.docs != [""]
    ensures Steady(log)
  {
    forall i, j | 0 <= i <= j < |log| && Writes(log[i]) && Writes(log[j])
      ensures log[i].at + log[i].ttl <= log[j].at + log[j].ttl
    {
      assert log[i] in log && log[j] in log;
    }
  }

  /** The documents two requests must share: as many times each, in any order, a lone empty id counting as no
    document. */
  function Documents(docs: seq<string>): multiset<string> { if docs == [""] then multiset{} else multiset(docs) }

  /** Two requests that share their answers: of the same tenant, for the same question, mode and documents. */
  predicate SameAnswer(a: Request, b: Request) {
    && (if a.tenant == "" then "default" else a.tenant) == (if b.tenant == "" then "default" else b.tenant)
    && a.question == b.question && a.mode == b.mode && Documents(a.docs) == Documents(b.docs)
  }

  /** Whether an invalidation of d is about an answer to r: it uses d, or the whole library, or a document of
    the reserved name. */
  predicate Affects(d: string, r: Request) {
    d in r.docs || r.docs == [] || r.docs == [""] || "__all__" in r.docs
  }

  /** What the log says is cached for r at time now: the latest store of a request that shares its answers, in a
    mode that is cached and without history, unless it has expired or an invalidation since then was about it. */
  function Reference(log: seq<Event>, r: Request, now: int): Option<Payload> {
    if log == [] then None
    else
      var init, last := log[..|log|-1], log[|log|-1];
      match last
      case Stored(q, payload, hasHistory, ttl, at) =>
        if (q.mode == "auto" || q.mode == "retrieval") && !hasHistory && ttl > 0 && SameAnswer(q, r) then
          if now < at + ttl then Some(payload) else None
        else Reference(init, r, now)
      case Invalidated(doc, at) =>
        if doc.None? || doc.value == "" || Affects(doc.value, r) then None else Reference(init, r, now)
  }

  /** Two requests have the same key exactly when they share their answers. */
  lemma KeysMatchIff(a: Request, b: Request)
    ensures BuildCacheKey(a) == BuildCacheKey(b) <==> SameAnswer(a, b)
  {
  }

  lemma AffectsIsHits(d: string, r: Request)
    requires d != ""
    ensures Affects(d, r) <==> Hits(d, BuildCacheKey(r))
  {
    if r.docs != [] {
      assert r.docs[0] in multiset(r.docs);
    }
  }

  function Content(c: Cache, k: Key, now: int): Option<Payload> {
    if Live(c, k, now) then Some(c.entries[k].payload) else None
  }

  /** A log whose every step came before `now`. */
  ghost predicate Until(log: seq<Event>, now: int) { Timed(log) && (log != [] ==> log[|log|-1].at <= now) }

  lemma OrderlyPrefix(log: seq<Event>)
    requires Orderly(log) && log != []
    ensures Orderly(log[..|log|-1]) && OrderlyAt(Exec(log[..|log|-1]), log[|log|-1])
  {
    var init := log[..|log|-1];
    forall i | 0 <= i < |init| ensures OrderlyAt(Exec(init[..i]), init[i]) {
      assert init[..i] == log[..i];
    }
  }

  lemma {:induction false} RunInv(log: seq<Event>, now: int)
    requires Until(log, now) && Orderly(log)
    ensures Inv(Exec(log), now)
  {
    if log != [] {
      var init, last := log[..|log|-1], log[|log|-1];
      OrderlyPrefix(log);
      hide Orderly, Undisturbed;
      RunInv(init, last.at);
      match last {
        case Stored(r, payload, hasHistory, ttl, at) => PutKeepsInv(Exec(init), r, payload, hasHistory, ttl, at);
        case Invalidated(doc, at) => DropKeepsInv(Exec(init), doc, at);
      }
      TimePasses(Exec(log), last.at, now);
    }
  }

  lemma DropContent(c: Cache, d: string, at: int, k: Key, now: int)
    requires Inv(c, at) && d != "" && at <= now
    ensures Content(Drop(c, Some(d), at), k, now) == if Hits(d, k) then None else Content(c, k, now)
  {
    if Live(c, k, at) {
      DropIsExact(c, d, at, k);
    }
  }

  /** The cache holds exactly what the log of stores and invalidations says. */
  lemma {:induction false} ContentIsReference(log: seq<Event>, r: Request, now: int)
    requires Until(log, now) && Orderly(log)
    ensures Content(Exec(log), BuildCacheKey(r), now) == Reference(log, r, now)
  {
    if log != [] {
      var init, last := log[..|log|-1], log[|log|-1];
      OrderlyPrefix(log);
      hide Orderly, Undisturbed;
      ContentIsReference(init, r, now);
      RunInv(init, last.at);
      if last.Stored? {
        KeysMatchIff(last.r, r);
        hide BuildCacheKey, SameAnswer;
      } else if last.doc.Some? && last.doc.value != "" {
        DropContent(Exec(init), last.doc.value, last.at, BuildCacheKey(r), now);
        AffectsIsHits(last.doc.value, r);
        hide BuildCacheKey, Affects, Hits, Drop;
      }
    }
  }

  /** So a lookup hits exactly when the log has an unexpired, uninvalidated answer with events for a request of
    the same tenant, question, mode and documents, its mode is cached and the session has no history. */
  lemma {:induction false} LookupIsReference(log: seq<Event>, r: Request, hasHistory: bool, now: int)
    requires Until(log, now) && Orderly(log)
    ensures var ref := Reference(log, r, now);
      Get(Exec(log), r, hasHistory, now) ==
        if (r.mode == "auto" || r.mode == "retrieval") && !hasHistory && ref.Some? && ref.value.events != [] then ref
        else None
  {
    ContentIsReference(log, r, now);
  }

  /** In particular no answer crosses tenants, questions, modes or document sets: what a lookup returns was
    stored for a request that shares its answers. */
  lemma {:induction false} HitsAreOwn(log: seq<Event>, r: Request, now: int) returns (i: nat)
    requires Reference(log, r, now).Some?
    ensures i < |log| && log[i].Stored? && SameAnswer(log[i].r, r)
    ensures log[i].payload == Reference(log, r, now).value && now < log[i].at + log[i].ttl
    ensures (log[i].r.mode == "auto" || log[i].r.mode == "retrieval") && !log[i].hasHistory
  {
    var init, last := log[..|log|-1], log[|log|-1];
    if last.Stored? && (last.r.mode == "auto" || last.r.mode == "retrieval") && !last.hasHistory && last.ttl > 0
       && SameAnswer(last.r, r) {
      i := |log| - 1;
    } else {
      i := HitsAreOwn(init, r, now);
    }
  }

  /** After an invalidation of d, no lookup finds an answer that uses d or the whole library, until it is
    stored again. */
  lemma {:induction false} InvalidationIsComplete(log: seq<Event>, d: string, at: int, r: Request, hasHistory: bool,
                                                  now: int)
    requires Until(log, at) && Orderly(log) && at <= now && d != ""
    requires d in r.docs || r.docs == [] || r.docs == [""]
    ensures !Live(Drop(Exec(log), Some(d), at), BuildCacheKey(r), now)
    ensures Get(Drop(Exec(log), Some(d), at), r, hasHistory, now) == None
  {
    RunInv(log, at);
    AffectsIsHits(d, r);
    DropContent(Exec(log), d, at, BuildCacheKey(r), now);
  }

  /** And it takes away no other answer. */
  lemma {:induction false} InvalidationIsPrecise(log: seq<Event>, d: string, at: int, r: Request, hasHistory: bool,
                                                 now: int)
    requires Until(log, at) && Orderly(log) && at <= now && d != ""
    requires d !in r.docs && r.docs != [] && r.docs != [""] && "__all__" !in r.docs
    ensures Get(Drop(Exec(log), Some(d), at), r, hasHistory, now) == Get(Exec(log), r, hasHistory, now)
  {
    RunInv(log, at);
    AffectsIsHits(d, r);
    DropContent(Exec(log), d, at, BuildCacheKey(r), now);
  }

  /** A store with a shorter time to live can hide an older entry from invalidation. */
  lemma ShorterTtlLosesEntries(d: string, q1: Request, q2: Request, p: Payload)
    requires d != "" && q1 == Request("t", "one", "auto", [d]) && q2 == Request("t", "two", "auto", [d])
    ensures var c := Put(Put(EMPTY, q1, p, false, 100, 0), q2, p, false, 10, 0);
      Live(Drop(c, Some(d), 50), BuildCacheKey(q1), 60)
  {
    var c1 := Put(EMPTY, q1, p, false, 100, 0);
    PutIndex(EMPTY, q1, p, 100, 0);
    PutIndex(c1, q2, p, 10, 0);
    var c := Put(c1, q2, p, false, 10, 0);
    assert d in q2.docs && d in IndexedUnder(q2);
    assert ALL !in EMPTY.index;
    assert Doomed(c, d, 50) == {};
  }

  /** So can a store with a lone empty document id: it renews a global answer without its listing. */
  lemma BlankDocumentLosesEntries(d: string, q1: Request, q2: Request, p: Payload)
    requires d != "" && q1 == Request("t", "q", "auto", []) && q2 == Request("t", "q", "auto", [""])
    ensures var c := Put(Put(EMPTY, q1, p, false, 100, 0), q2, p, false, 100, 50);
      Live(Drop(c, Some(d), 120), BuildCacheKey(q1), 130)
  {
    var c1 := Put(EMPTY, q1, p, false, 100, 0);
    PutIndex(EMPTY, q1, p, 100, 0);
    PutIndex(c1, q2, p, 100, 50);
    var c := Put(c1, q2, p, false, 100, 50);
    assert ALL !in IndexedUnder(q2) && ALL in IndexedUnder(q1);
    assert d != ALL ==> d !in IndexedUnder(q1);
    assert Doomed(c, d, 120) == {};
  }
}
