/** The subscription tables of src/application.cpp: the subscribe and unsubscribe operations and the dispatch
    in handleWsMessage, against a reference that follows one owner at a time through the history. */
module Subscriptions {
  import opened Common

  /** A registered function. Subscribing to era and session registers one of its own for new heads. */
  datatype Callback = User(n: nat) | TrackBestBlock

  /** A scalar subscription: its server id, zero if there is none, and its callback. */
  datatype Slot = Slot(id: int, callback: Option<Callback>) {
    /** Registers the callback; opens a server subscription only if there is none. */
    function Subscribe(cb: Callback, newId: int): Slot {
      Slot(if id == 0 then newId else id, Some(cb))
    }
    function Unsubscribe(): Slot { if id != 0 then EMPTY else this }
    function View(): Option<(int, Callback)> {
      if id == 0 || callback.None? then None else Some((id, callback.value))
    }
    predicate Consistent() { id == 0 <==> callback.None? }
  }

  const EMPTY := Slot(0, None)

  /** A keyed family of subscriptions: two maps, as in the source. */
  datatype Table = Table(ids: map<string, int>, callbacks: map<string, Callback>) {
    function Subscribe(key: string, cb: Callback, newId: int): Table {
      Table(if key in ids then ids else ids[key := newId], callbacks[key := cb])
    }
    function Unsubscribe(key: string): Table {
      if key in ids then Table(ids - {key}, callbacks - {key}) else this
    }
    function View(key: string): Option<(int, Callback)> {
      if key in ids && key in callbacks then Some((ids[key], callbacks[key])) else None
    }
    predicate Consistent() { ids.Keys == callbacks.Keys }
  }

  datatype Owner =
    | Block | Era | FinalizedBlock | RuntimeVersion | Extrinsic | Transfer
    | Balance(address: string) | Nonce(address: string) | Storage(key: string)

  /** What an update says, as far as the dispatch looks at it. `eraComplete`: in session mode, all the fields
      the era computation needs are there. */
  datatype Update = Update(number: int, status: Status, eraComplete: bool)
  datatype Status = Ready | Final | Other

  datatype App = App(
    isEpoch: bool, bestBlock: int,
    block: Slot, era: Slot, finalized: Slot, runtime: Slot, extrinsic: Slot, transfer: Slot,
    balance: Table, nonce: Table, storage: Table)
  {
    /** The subscription an owner has in the tables. */
    function View(o: Owner): Option<(int, Callback)> {
      match o
      case Block => block.View()
      case Era => era.View()
      case FinalizedBlock => finalized.View()
      case RuntimeVersion => runtime.View()
      case Extrinsic => extrinsic.View()
      case Transfer => transfer.View()
      case Balance(a) => balance.View(a)
      case Nonce(a) => nonce.View(a)
      case Storage(k) => storage.View(k)
    }

    /** Callback and id are set and cleared together, in every slot and every table. */
    predicate Consistent() {
      block.Consistent() && era.Consistent() && finalized.Consistent() && runtime.Consistent()
      && extrinsic.Consistent() && transfer.Consistent()
      && balance.Consistent() && nonce.Consistent() && storage.Consistent()
    }
  }

  function Initial(isEpoch: bool): App {
    var t := Table(map[], map[]);
    App(isEpoch, -1, EMPTY, EMPTY, EMPTY, EMPTY, EMPTY, EMPTY, t, t, t)
  }

  // ---------------------------------------------------------------- the operations

  /** The subscribe operation of an owner. `newId` is the id the server gives if it is asked for one, and
      `headsId` the one for new heads when era and session is subscribed. */
  function Subscribe(a: App, o: Owner, cb: Callback, newId: int, headsId: int): App {
    match o
    case Block => a.(block := a.block.Subscribe(cb, newId))
    case Era => a.(era := a.era.Subscribe(cb, newId), block := a.block.Subscribe(TrackBestBlock, headsId))
    case FinalizedBlock => a.(finalized := a.finalized.Subscribe(cb, newId))
    case RuntimeVersion => a.(runtime := a.runtime.Subscribe(cb, newId))
    case Extrinsic => a.(extrinsic := Slot(newId, Some(cb)))
    case Transfer => a.(transfer := Slot(newId, Some(cb)))
    case Balance(x) => a.(balance := a.balance.Subscribe(x, cb, newId))
    case Nonce(x) => a.(nonce := a.nonce.Subscribe(x, cb, newId))
    case Storage(k) => a.(storage := a.storage.Subscribe(k, cb, newId))
  }

  /** Extrinsics and transfers have no unsubscribe operation. */
  predicate HasUnsubscribe(o: Owner) { !o.Extrinsic? && !o.Transfer? }

  function Unsubscribe(a: App, o: Owner): App
    requires HasUnsubscribe(o)
  {
    match o
    case Block => a.(block := a.block.Unsubscribe())
    case Era => a.(era := a.era.Unsubscribe(), block := a.block.Unsubscribe())
    case FinalizedBlock => a.(finalized := a.finalized.Unsubscribe())
    case RuntimeVersion => a.(runtime := a.runtime.Unsubscribe())
    case Balance(x) => a.(balance := a.balance.Unsubscribe(x))
    case Nonce(x) => a.(nonce := a.nonce.Unsubscribe(x))
    case Storage(k) => a.(storage := a.storage.Unsubscribe(k))
  }

  /** The key of an id in a table, if it has one. */
  ghost function KeyOf(ids: map<string, int>, id: int): (r: Option<string>)
    ensures r.Some? ==> r.value in ids && ids[r.value] == id
    ensures r.None? ==> forall k :: k in ids ==> ids[k] != id
  {
    if k :| k in ids && ids[k] == id then Some(k) else None
  }

  /** The chain of tests in handleWsMessage: the first owner whose id matches. */
  ghost function OwnerOf(a: App, id: int): Option<Owner> {
    if a.block.id == id then Some(Block)
    else if KeyOf(a.nonce.ids, id).Some? then Some(Nonce(KeyOf(a.nonce.ids, id).value))
    else if KeyOf(a.balance.ids, id).Some? then Some(Balance(KeyOf(a.balance.ids, id).value))
    else if a.extrinsic.id == id then Some(Extrinsic)
    else if a.transfer.id == id then Some(Transfer)
    else if a.era.id == id && a.bestBlock != -1 then Some(Era)
    else if a.finalized.id == id then Some(FinalizedBlock)
    else if a.runtime.id == id then Some(RuntimeVersion)
    else if KeyOf(a.storage.ids, id).Some? then Some(Storage(KeyOf(a.storage.ids, id).value))
    else None
  }

  /** Whether the matched branch calls its callback. */
  predicate Calls(a: App, o: Owner, u: Update) {
    match o
    case Transfer => u.status != Other
    case Era => a.isEpoch || u.eraComplete
    case _ => true
  }

  /** The callback an update is handed to. */
  ghost function Called(a: App, id: int, u: Update): Option<(Owner, Callback)> {
    var o := OwnerOf(a, id);
    if o.Some? && Calls(a, o.value, u) && a.View(o.value).Some? then Some((o.value, a.View(o.value).value.1)) else None
  }

  ghost function Dispatch(a: App, id: int, u: Update): App {
    match OwnerOf(a, id)
    case Some(Block) => if a.block.callback == Some(TrackBestBlock) then a.(bestBlock := u.number) else a
    case Some(Transfer) => if u.status == Final then a.(transfer := EMPTY) else a
    case _ => a
  }

  // ---------------------------------------------------------------- histories

  datatype Event =
    | Subscribed(owner: Owner, cb: Callback, newId: int, headsId: int)
    | Unsubscribed(owner: Owner)
    | Updated(id: int, update: Update)

  ghost function Apply(a: App, e: Event): App {
    match e
    case Subscribed(o, cb, newId, headsId) => Subscribe(a, o, cb, newId, headsId)
    case Unsubscribed(o) => if HasUnsubscribe(o) then Unsubscribe(a, o) else a
    case Updated(id, u) => Dispatch(a, id, u)
  }

  ghost function After(isEpoch: bool, h: seq<Event>): App {
    if h == [] then Initial(isEpoch) else Apply(After(isEpoch, h[..|h| - 1]), h[|h| - 1])
  }

  function UsedIds(h: seq<Event>): set<int> {
    if h == [] then {}
    else UsedIds(h[..|h| - 1]) + if h[|h| - 1].Subscribed? then {h[|h| - 1].newId, h[|h| - 1].headsId} else {}
  }

  /** The server hands out ids that are not zero and never the same one twice; updates carry an id. */
  predicate Fresh(h: seq<Event>, e: Event) {
    match e
    case Subscribed(_, _, newId, headsId) =>
      newId != 0 && headsId != 0 && newId != headsId && newId !in UsedIds(h) && headsId !in UsedIds(h)
    case Updated(id, _) => id != 0
    case _ => true
  }

  ghost predicate Honest(h: seq<Event>) {
    h == [] || (Honest(h[..|h| - 1]) && Fresh(h[..|h| - 1], h[|h| - 1]))
  }

  // ---------------------------------------------------------------- the reference: one owner at a time

  /** What one event does to the subscription of one owner, whatever else is going on. */
  function Effect(prev: Option<(int, Callback)>, o: Owner, e: Event): Option<(int, Callback)> {
    match e
    case Subscribed(owner, cb, newId, headsId) =>
      if owner == o then
        if HasUnsubscribe(o) && prev.Some? then Some((prev.value.0, cb)) else Some((newId, cb))
      else if owner == Era && o == Block then
        Some((if prev.Some? then prev.value.0 else headsId, TrackBestBlock))
      else prev
    case Unsubscribed(owner) =>
      if HasUnsubscribe(owner) && (owner == o || (owner == Era && o == Block)) then None else prev
    case Updated(id, u) =>
      if o == Transfer && prev.Some? && prev.value.0 == id && u.status == Final then None else prev
  }

  function Entry(h: seq<Event>, o: Owner): Option<(int, Callback)> {
    if h == [] then None else Effect(Entry(h[..|h| - 1], o), o, h[|h| - 1])
  }

  // ---------------------------------------------------------------- what the server sees

  /** The guard in front of subscribeWs. Extrinsics and transfers have none. */
  predicate Asks(a: App, o: Owner) {
    match o
    case Block => a.block.id == 0
    case Era => a.era.id == 0
    case FinalizedBlock => a.finalized.id == 0
    case RuntimeVersion => a.runtime.id == 0
    case Extrinsic => true
    case Transfer => true
    case Balance(x) => x !in a.balance.ids
    case Nonce(x) => x !in a.nonce.ids
    case Storage(k) => k !in a.storage.ids
  }

  /** The guard in front of unsubscribeWs, with the id that is passed to it. */
  function ClosedBy(a: App, o: Owner): set<int> {
    match o
    case Block => if a.block.id != 0 then {a.block.id} else {}
    case Era => if a.era.id != 0 then {a.era.id} else {}
    case FinalizedBlock => if a.finalized.id != 0 then {a.finalized.id} else {}
    case RuntimeVersion => if a.runtime.id != 0 then {a.runtime.id} else {}
    case Extrinsic => {}
    case Transfer => {}
    case Balance(x) => if x in a.balance.ids then {a.balance.ids[x]} else {}
    case Nonce(x) => if x in a.nonce.ids then {a.nonce.ids[x]} else {}
    case Storage(k) => if k in a.storage.ids then {a.storage.ids[k]} else {}
  }

  /** The ids an event obtains from the server for an owner. */
  function Opened(a: App, e: Event, o: Owner): set<int> {
    if !e.Subscribed? || !Asks(a, o) then {}
    else if e.owner == o then {e.newId}
    else if e.owner == Era && o == Block then {e.headsId}
    else {}
  }

  /** The ids an event gives back. The server ends a transfer itself, with its "finalized" update. */
  function Closed(a: App, e: Event, o: Owner): set<int> {
    match e
    case Subscribed(_, _, _, _) => {}
    case Unsubscribed(owner) => if owner == o || (owner == Era && o == Block) then ClosedBy(a, o) else {}
    case Updated(id, u) => if o == Transfer && u.status == Final then {id} else {}
  }

  /** The server subscriptions an owner has open after a history. */
  ghost function Open(isEpoch: bool, h: seq<Event>, o: Owner): set<int> {
    if h == [] then {}
    else
      var a, e := After(isEpoch, h[..|h| - 1]), h[|h| - 1];
      Open(isEpoch, h[..|h| - 1], o) + Opened(a, e, o) - Closed(a, e, o)
  }

  // ---------------------------------------------------------------- properties

  lemma {:induction false} EntriesUseHandedOutIds(h: seq<Event>, o: Owner)
    requires Honest(h)
    ensures Entry(h, o).Some? ==> Entry(h, o).value.0 in UsedIds(h) && Entry(h, o).value.0 != 0
  {
    if h != [] { EntriesUseHandedOutIds(h[..|h| - 1], o); }
  }

  /** No two owners ever share a server id. */
  lemma {:induction false} OwnersHaveDistinctIds(h: seq<Event>, o: Owner, p: Owner)
    requires Honest(h) && o != p && Entry(h, o).Some? && Entry(h, p).Some?
    ensures Entry(h, o).value.0 != Entry(h, p).value.0
  {
    if h != [] {
      var prev := h[..|h| - 1];
      EntriesUseHandedOutIds(prev, o);
      EntriesUseHandedOutIds(prev, p);
      if Entry(prev, o).Some? && Entry(prev, p).Some? {
        OwnersHaveDistinctIds(prev, o, p);
      }
    }
  }

  ghost predicate Refines(a: App, h: seq<Event>) {
    a.Consistent() && forall o :: a.View(o) == Entry(h, o)
  }

  /** In a table that agrees with the reference, the dispatch finds the owner of an id if and only if there
      is one; only an era update is passed over, while no block number is known. */
  lemma {:induction false} OwnerOfIsOwner(a: App, h: seq<Event>, id: int)
    requires Honest(h) && Refines(a, h) && id != 0
    ensures OwnerOf(a, id).Some? ==>
              var o := OwnerOf(a, id).value; a.View(o).Some? && a.View(o).value.0 == id && Entry(h, o) == a.View(o)
    ensures OwnerOf(a, id).None? ==>
              forall o :: a.View(o).Some? && a.View(o).value.0 == id ==> o == Era && a.bestBlock == -1
  {
    var r := OwnerOf(a, id);
    if r.Some? {
      var o := r.value;
      assert a.View(o) == Entry(h, o);
    } else {
      forall o | a.View(o).Some? && a.View(o).value.0 == id ensures o == Era && a.bestBlock == -1 {
      }
    }
  }

  lemma {:induction false} UpdateKeepsRefinement(a: App, h: seq<Event>, id: int, u: Update)
    requires Honest(h) && Refines(a, h) && id != 0
    ensures forall o :: Dispatch(a, id, u).View(o) == Effect(Entry(h, o), o, Updated(id, u))
    ensures Dispatch(a, id, u).Consistent()
  {
    OwnerOfIsOwner(a, h, id);
    forall o ensures Dispatch(a, id, u).View(o) == Effect(Entry(h, o), o, Updated(id, u)) {
      assert a.View(o) == Entry(h, o);
      if o == Transfer && Entry(h, o).Some? && Entry(h, o).value.0 == id {
        var r := OwnerOf(a, id);
        assert r.Some?;
        if r.value != Transfer { OwnersHaveDistinctIds(h, r.value, Transfer); }
      }
    }
  }

  lemma {:induction false} SubscribeEffect(a: App, owner: Owner, cb: Callback, newId: int, headsId: int, o: Owner)
    requires a.Consistent() && newId != 0 && headsId != 0
    ensures Subscribe(a, owner, cb, newId, headsId).View(o)
         == Effect(a.View(o), o, Subscribed(owner, cb, newId, headsId))
  {
  }

  lemma {:induction false} SubscribeConsistent(a: App, owner: Owner, cb: Callback, newId: int, headsId: int)
    requires a.Consistent() && newId != 0 && headsId != 0
    ensures Subscribe(a, owner, cb, newId, headsId).Consistent()
  {
  }

  lemma {:induction false} UnsubscribeEffect(a: App, owner: Owner, o: Owner)
    requires a.Consistent() && HasUnsubscribe(owner)
    ensures Unsubscribe(a, owner).Consistent()
    ensures Unsubscribe(a, owner).View(o) == Effect(a.View(o), o, Unsubscribed(owner))
  {
  }

  lemma {:induction false} SubscribeKeepsRefinement(a: App, h: seq<Event>, e: Event)
    requires Refines(a, h) && !e.Updated? && Fresh(h, e)
    ensures forall o :: Apply(a, e).View(o) == Effect(Entry(h, o), o, e)
    ensures Apply(a, e).Consistent()
  {
    if e.Subscribed? { SubscribeConsistent(a, e.owner, e.cb, e.newId, e.headsId); }
    forall o ensures Apply(a, e).View(o) == Effect(Entry(h, o), o, e) {
      assert a.View(o) == Entry(h, o);
      if e.Subscribed? {
        SubscribeEffect(a, e.owner, e.cb, e.newId, e.headsId, o);
      } else if HasUnsubscribe(e.owner) {
        UnsubscribeEffect(a, e.owner, o);
      }
    }
    if e.Unsubscribed? && HasUnsubscribe(e.owner) { UnsubscribeEffect(a, e.owner, Block); }
  }

  /** After every honest history, the slots and maps of the object are exactly the reference entries, and
      callback and id tables have the same keys. */
  lemma {:induction false} RunRefines(isEpoch: bool, h: seq<Event>)
    requires Honest(h)
    ensures Refines(After(isEpoch, h), h)
  {
    if h != [] {
      var prev, e := h[..|h| - 1], h[|h| - 1];
      RunRefines(isEpoch, prev);
      var a := After(isEpoch, prev);
      if e.Updated? {
        UpdateKeepsRefinement(a, prev, e.id, e.update);
      } else {
        SubscribeKeepsRefinement(a, prev, e);
      }
    }
  }

  /** What an update must bring for the branch of an owner to call its callback. */
  lemma {:induction false} CalledIff(a: App, h: seq<Event>, id: int, u: Update, o: Owner, cb: Callback)
    requires Honest(h) && Refines(a, h) && id != 0
    ensures Called(a, id, u) == Some((o, cb))
       <==> && Entry(h, o) == Some((id, cb))
            && (o == Transfer ==> u.status == Ready || u.status == Final)
            && (o == Era ==> a.bestBlock != -1 && (a.isEpoch || u.eraComplete))
  {
    OwnerOfIsOwner(a, h, id);
    assert a.View(o) == Entry(h, o);
    var r := OwnerOf(a, id);
    if r.Some? {
      assert a.View(r.value) == Entry(h, r.value);
      if r.value != o && Entry(h, o).Some? { OwnersHaveDistinctIds(h, r.value, o); }
    }
  }

  lemma {:induction false} ModeStays(isEpoch: bool, h: seq<Event>)
    ensures After(isEpoch, h).isEpoch == isEpoch
  {
    if h != [] {
      ModeStays(isEpoch, h[..|h| - 1]);
    }
  }

  /** An update calls a callback if and only if it is the one last registered for the owner of the id, so at
      most one. A transfer update must say ready or finalized; an era update must find a block number known and,
      in session mode, be complete. Nothing else is asked of any owner. */
  lemma {:induction false} UpdateCallsTheLatest(
    isEpoch: bool, h: seq<Event>, id: int, u: Update, o: Owner, cb: Callback)
    requires Honest(h) && id != 0
    ensures var a := After(isEpoch, h);
            Called(a, id, u) == Some((o, cb))
            <==> && Entry(h, o) == Some((id, cb))
                 && (o == Transfer ==> u.status == Ready || u.status == Final)
                 && (o == Era ==> a.bestBlock != -1 && (isEpoch || u.eraComplete))
  {
    RunRefines(isEpoch, h);
    ModeStays(isEpoch, h);
    CalledIff(After(isEpoch, h), h, id, u, o, cb);
  }

  /** Event n is an update of new heads that goes to the function era and session has registered. */
  ghost predicate NewHead(h: seq<Event>, n: int) {
    0 <= n < |h| && h[n].Updated? && Entry(h[..n], Block) == Some((h[n].id, TrackBestBlock))
  }

  ghost predicate LastHead(h: seq<Event>, n: int) {
    NewHead(h, n) && forall k :: n < k < |h| ==> !NewHead(h, k)
  }

  lemma {:induction false} BestBlockStep(a: App, h: seq<Event>, e: Event)
    requires Honest(h) && Refines(a, h) && Fresh(h, e)
    ensures Apply(a, e).bestBlock
         == if e.Updated? && Entry(h, Block) == Some((e.id, TrackBestBlock)) then e.update.number else a.bestBlock
  {
    assert a.View(Block) == Entry(h, Block);
    if e.Updated? {
      OwnerOfIsOwner(a, h, e.id);
    }
  }

  /** The best block is the number in the last such update, and -1 if there was none. */
  lemma {:induction false} BestBlockIsTheLastHead(isEpoch: bool, h: seq<Event>)
    requires Honest(h)
    ensures forall n :: LastHead(h, n) ==> After(isEpoch, h).bestBlock == h[n].update.number
    ensures (forall n :: !NewHead(h, n)) ==> After(isEpoch, h).bestBlock == -1
  {
    if h != [] {
      var last := |h| - 1;
      var prev := h[..last];
      BestBlockIsTheLastHead(isEpoch, prev);
      RunRefines(isEpoch, prev);
      BestBlockStep(After(isEpoch, prev), prev, h[last]);
      HeadsOfPrefix(h);
      if !NewHead(h, last) {
        forall n | LastHead(h, n) ensures LastHead(prev, n) {
          assert n != last;
          forall k | n < k < last ensures !NewHead(prev, k) {
            assert !NewHead(h, k);
          }
        }
        if n :| NewHead(prev, n) {
          assert NewHead(h, n);
        }
      } else {
        forall n | LastHead(h, n) ensures n == last {
        }
      }
    }
  }

  lemma {:induction false} HeadsOfPrefix(h: seq<Event>)
    requires h != []
    ensures forall n :: n < |h| - 1 ==> (NewHead(h[..|h| - 1], n) <==> NewHead(h, n))
  {
    var prev := h[..|h| - 1];
    forall n | n < |h| - 1 ensures NewHead(prev, n) <==> NewHead(h, n) {
      if 0 <= n {
        assert prev[..n] == h[..n];
      }
    }
  }

  // ---------------------------------------------------------------- at most one open subscription

  /** The guards of the code, in terms of the reference entries. */
  lemma {:induction false} GuardsFollowEntries(a: App, h: seq<Event>, o: Owner)
    requires Refines(a, h)
    ensures Asks(a, o) <==> Entry(h, o).None? || !HasUnsubscribe(o)
    ensures HasUnsubscribe(o) ==> ClosedBy(a, o) == IdIn(Entry(h, o))
  {
    assert a.View(o) == Entry(h, o);
  }

  function IdIn(entry: Option<(int, Callback)>): set<int> { if entry.Some? then {entry.value.0} else {} }

  lemma {:induction false} OpenIdsAreUsed(isEpoch: bool, h: seq<Event>, o: Owner)
    ensures Open(isEpoch, h, o) <= UsedIds(h)
  {
    if h != [] {
      OpenIdsAreUsed(isEpoch, h[..|h| - 1], o);
    }
  }

  lemma {:induction false} EntryStaysOpen(a: App, h: seq<Event>, e: Event, o: Owner, open: set<int>)
    requires Refines(a, h) && Fresh(h, e) && IdIn(Entry(h, o)) <= open <= UsedIds(h)
    ensures IdIn(Effect(Entry(h, o), o, e)) <= open + Opened(a, e, o) - Closed(a, e, o)
  {
    GuardsFollowEntries(a, h, o);
  }

  /** The id of an entry is open. */
  lemma {:induction false} EntriesAreOpen(isEpoch: bool, h: seq<Event>, o: Owner)
    requires Honest(h)
    ensures IdIn(Entry(h, o)) <= Open(isEpoch, h, o)
  {
    if h != [] {
      var prev := h[..|h| - 1];
      EntriesAreOpen(isEpoch, prev, o);
      OpenIdsAreUsed(isEpoch, prev, o);
      RunRefines(isEpoch, prev);
      EntryStaysOpen(After(isEpoch, prev), prev, h[|h| - 1], o, Open(isEpoch, prev, o));
    }
  }

  /** No id is open for two owners. */
  lemma {:induction false} OpenIdsAreDisjoint(isEpoch: bool, h: seq<Event>, o: Owner, p: Owner)
    requires Honest(h) && o != p
    ensures Open(isEpoch, h, o) !! Open(isEpoch, h, p)
  {
    if h != [] {
      var prev := h[..|h| - 1];
      OpenIdsAreDisjoint(isEpoch, prev, o, p);
      OpenIdsAreUsed(isEpoch, prev, o);
      OpenIdsAreUsed(isEpoch, prev, p);
    }
  }

  /** Event n subscribes an owner for which the code has no guard while its entry is set. */
  ghost predicate Overlaps(h: seq<Event>, o: Owner, n: nat) {
    n < |h| && !HasUnsubscribe(o) && h[n].Subscribed? && h[n].owner == o && Entry(h[..n], o).Some?
  }

  /** Without such an event the entry is the only open subscription. */
  lemma {:induction false} OpenIsTheEntry(isEpoch: bool, h: seq<Event>, o: Owner)
    requires Honest(h) && forall n :: 0 <= n < |h| ==> !Overlaps(h, o, n)
    ensures Open(isEpoch, h, o) == IdIn(Entry(h, o))
  {
    if h != [] {
      var last := |h| - 1;
      var prev := h[..last];
      forall n | 0 <= n < last ensures !Overlaps(prev, o, n) {
        assert prev[..n] == h[..n];
        assert !Overlaps(h, o, n);
      }
      assert !Overlaps(h, o, last);
      OpenIsTheEntry(isEpoch, prev, o);
      RunRefines(isEpoch, prev);
      EntryStep(After(isEpoch, prev), prev, h[last], o);
    }
  }

  lemma {:induction false} EntryStep(a: App, h: seq<Event>, e: Event, o: Owner)
    requires Refines(a, h) && Fresh(h, e)
    requires HasUnsubscribe(o) || !e.Subscribed? || e.owner != o || Entry(h, o).None?
    ensures IdIn(Entry(h, o)) + Opened(a, e, o) - Closed(a, e, o) == IdIn(Effect(Entry(h, o), o, e))
  {
    GuardsFollowEntries(a, h, o);
  }

  /** An owner without a guard opens a subscription each time. */
  lemma {:induction false} UnguardedStep(isEpoch: bool, h: seq<Event>, o: Owner)
    requires !HasUnsubscribe(o) && h != []
    ensures var e, open := h[|h| - 1], Open(isEpoch, h[..|h| - 1], o);
            Open(isEpoch, h, o)
            == if e.Subscribed? && e.owner == o then open + {e.newId}
               else if o == Transfer && e.Updated? && e.update.status == Final then open - {e.id}
               else open
  {
  }

  /** Such an event leaves two: the new one, and the old one that no entry remembers. */
  lemma {:induction false} OverlapLeavesTwo(isEpoch: bool, h: seq<Event>, o: Owner, n: nat)
    requires Honest(h) && Overlaps(h, o, n)
    ensures |Open(isEpoch, h[..n + 1], o)| >= 2
  {
    HonestPrefix(h, n + 1);
    assert h[..n + 1][..n] == h[..n];
    EntriesAreOpen(isEpoch, h[..n], o);
    OpenIdsAreUsed(isEpoch, h[..n], o);
    UnguardedStep(isEpoch, h[..n + 1], o);
    TwoElements(Open(isEpoch, h[..n + 1], o), Entry(h[..n], o).value.0, h[n].newId);
  }

  lemma {:induction false} HonestPrefix(h: seq<Event>, n: nat)
    requires Honest(h) && n <= |h|
    ensures Honest(h[..n])
    decreases |h|
  {
    if n == |h| {
      assert h[..n] == h;
    } else {
      HonestPrefix(h[..|h| - 1], n);
      assert h[..|h| - 1][..n] == h[..n];
    }
  }

  lemma {:induction false} TwoElements(s: set<int>, x: int, y: int)
    requires x in s && y in s && x != y
    ensures |s| >= 2
  {
    assert s == {x, y} + (s - {x, y});
  }

  /** An owner has at most one open server subscription at every moment if and only if it never subscribes,
      without a guard, while it has an entry. Of the owners that can unsubscribe this holds always; a transfer
      overlaps if it is sent before the one before it is finalized, an extrinsic if it is not the first. */
  lemma {:induction false} AtMostOneOpen(isEpoch: bool, h: seq<Event>, o: Owner)
    requires Honest(h)
    ensures (forall n :: 0 <= n <= |h| ==> |Open(isEpoch, h[..n], o)| <= 1)
       <==> (forall n :: 0 <= n < |h| ==> !Overlaps(h, o, n))
  {
    if n :| 0 <= n < |h| && Overlaps(h, o, n) {
      OverlapLeavesTwo(isEpoch, h, o, n);
    } else {
      forall n | 0 <= n <= |h| ensures |Open(isEpoch, h[..n], o)| <= 1 {
        HonestPrefix(h, n);
        forall k | 0 <= k < n ensures !Overlaps(h[..n], o, k) {
          assert h[..n][..k] == h[..k];
          assert !Overlaps(h, o, k);
        }
        OpenIsTheEntry(isEpoch, h[..n], o);
      }
    }
  }

  function Submissions(h: seq<Event>): nat {
    if h == [] then 0
    else Submissions(h[..|h| - 1]) + if h[|h| - 1].Subscribed? && h[|h| - 1].owner == Extrinsic then 1 else 0
  }

  /** The client closes no extrinsic: each submission stays open, so there is at most one exactly if there was
      at most one submission. */
  lemma {:induction false} ExtrinsicsStayOpen(isEpoch: bool, h: seq<Event>)
    requires Honest(h)
    ensures |Open(isEpoch, h, Extrinsic)| == Submissions(h)
  {
    if h != [] {
      var prev := h[..|h| - 1];
      ExtrinsicsStayOpen(isEpoch, prev);
      OpenIdsAreUsed(isEpoch, prev, Extrinsic);
      UnguardedStep(isEpoch, h, Extrinsic);
    }
  }

  /** An update for an open id calls the callback of its owner, if the entry still holds that id, and nobody
      once the entry holds another id. */
  lemma {:induction false} LostUpdateCallsNobody(isEpoch: bool, h: seq<Event>, o: Owner, id: int, u: Update)
    requires Honest(h) && id != 0 && id in Open(isEpoch, h, o)
    ensures var a, entry := After(isEpoch, h), Entry(h, o);
            Called(a, id, u)
            == if && entry.Some? && entry.value.0 == id
                  && (o == Transfer ==> u.status == Ready || u.status == Final)
                  && (o == Era ==> a.bestBlock != -1 && (isEpoch || u.eraComplete))
               then Some((o, entry.value.1)) else None
  {
    var r := Called(After(isEpoch, h), id, u);
    if r.Some? {
      var p := r.value.0;
      UpdateCallsTheLatest(isEpoch, h, id, u, p, r.value.1);
      EntriesAreOpen(isEpoch, h, p);
      if p != o { OpenIdsAreDisjoint(isEpoch, h, o, p); }
    } else if Entry(h, o).Some? {
      UpdateCallsTheLatest(isEpoch, h, id, u, o, Entry(h, o).value.1);
    }
  }

  /** Two transfers, the second sent before the first is finalized: both are open, and no update of the first
      calls anybody any more. */
  lemma {:induction false} FirstTransferIsLost(isEpoch: bool, u: Update)
    ensures var h := [Subscribed(Transfer, User(1), 7, 8), Subscribed(Transfer, User(2), 9, 10)];
            && Honest(h) && Open(isEpoch, h, Transfer) == {7, 9} && Entry(h, Transfer) == Some((9, User(2)))
            && Called(After(isEpoch, h), 7, u) == None
  {
    var e1, e2 := Subscribed(Transfer, User(1), 7, 8), Subscribed(Transfer, User(2), 9, 10);
    var h0: seq<Event>, h1, h := [], [e1], [e1, e2];
    assert h1[..0] == h0 && h[..1] == h1;
    assert UsedIds(h0) == {} && UsedIds(h1) == {7, 8};
    assert Honest(h0) && Honest(h1) && Honest(h);
    assert Open(isEpoch, h0, Transfer) == {} && Open(isEpoch, h1, Transfer) == {7};
    assert Open(isEpoch, h, Transfer) == {7, 9};
    LostUpdateCallsNobody(isEpoch, h, Transfer, 7, u);
  }

  predicate Resubscribes(e: Event, o: Owner) {
    e.Subscribed? && (e.owner == o || (e.owner == Era && o == Block))
  }

  /** Once gone, an entry stays away until the owner subscribes again. */
  lemma {:induction false} StaysGone(h: seq<Event>, more: seq<Event>, o: Owner)
    requires Entry(h, o).None? && forall i :: 0 <= i < |more| ==> !Resubscribes(more[i], o)
    ensures Entry(h + more, o).None?
  {
    if more == [] {
      assert h + more == h;
    } else {
      var n := |more| - 1;
      StaysGone(h, more[..n], o);
      assert (h + more)[..|h| + n] == h + more[..n];
    }
  }

  /** So no update calls an owner's callback after it unsubscribed, nor a transfer's after "finalized". */
  lemma {:induction false} SilentAfterTheEnd(
    isEpoch: bool, h: seq<Event>, last: Event, more: seq<Event>, o: Owner, id: int, u: Update)
    requires Honest(h + [last] + more) && id != 0
    requires || (last.Unsubscribed? && HasUnsubscribe(last.owner) && last.owner == o)
             || (o == Transfer && Entry(h, o).Some? && last.Updated? && last.id == Entry(h, o).value.0
                 && last.update.status == Final)
    requires forall i :: 0 <= i < |more| ==> !Resubscribes(more[i], o)
    ensures var r := Called(After(isEpoch, h + [last] + more), id, u); r.Some? ==> r.value.0 != o
  {
    assert (h + [last])[..|h|] == h;
    StaysGone(h + [last], more, o);
    var r := Called(After(isEpoch, h + [last] + more), id, u);
    if r.Some? {
      UpdateCallsTheLatest(isEpoch, h + [last] + more, id, u, r.value.0, r.value.1);
    }
  }

  // ---------------------------------------------------------------- the object

  class CPolkaApi {
    const isEpoch: bool
    var bestBlock: int
    var block: Slot
    var era: Slot
    var finalized: Slot
    var runtime: Slot
    var extrinsic: Slot
    var transfer: Slot
    var balance: Table
    var nonce: Table
    var storage: Table

    ghost function View(): App
      reads this
    {
      App(isEpoch, bestBlock, block, era, finalized, runtime, extrinsic, transfer, balance, nonce, storage)
    }

    /** All subscription ids start at zero. */
    constructor (isEpoch: bool)
      ensures View() == Initial(isEpoch)
    {
      this.isEpoch := isEpoch;
      bestBlock := -1;
      block, era, finalized, runtime, extrinsic, transfer := EMPTY, EMPTY, EMPTY, EMPTY, EMPTY, EMPTY;
      balance, nonce, storage := Table(map[], map[]), Table(map[], map[]), Table(map[], map[]);
    }

    /** `asked` tells whether a server subscription was opened; `newId` is used only then. */
    method SubscribeBlockNumber(cb: Callback, newId: int) returns (asked: bool)
      modifies this`block
      ensures View() == Subscribe(old(View()), Block, cb, newId, newId) && asked == Asks(old(View()), Block)
    {
      block := block.(callback := Some(cb));
      asked := block.id == 0;
      if asked {
        block := block.(id := newId);
      }
    }

    method SubscribeEraAndSession(cb: Callback, newId: int, headsId: int) returns (asked: bool, askedHeads: bool)
      modifies this`era, this`block
      ensures View() == Subscribe(old(View()), Era, cb, newId, headsId)
      ensures asked == Asks(old(View()), Era) && askedHeads == Asks(old(View()), Block)
    {
      era := era.(callback := Some(cb));
      askedHeads := SubscribeBlockNumber(TrackBestBlock, headsId);
      asked := era.id == 0;
      if asked {
        era := era.(id := newId);
      }
    }

    /** `closed` holds the server ids that were given back. */
    method UnsubscribeEraAndSession() returns (closed: set<int>)
      modifies this`era, this`block
      ensures View() == Unsubscribe(old(View()), Era)
      ensures closed == ClosedBy(old(View()), Era) + ClosedBy(old(View()), Block)
    {
      closed := {};
      if era.id != 0 {
        closed := {era.id};
        era := Slot(0, None);
      }
      var heads := UnsubscribeBlockNumber();
      closed := closed + heads;
    }

    method UnsubscribeBlockNumber() returns (closed: set<int>)
      modifies this`block
      ensures View() == Unsubscribe(old(View()), Block) && closed == ClosedBy(old(View()), Block)
    {
      closed := {};
      if block.id != 0 {
        closed := {block.id};
        block := Slot(0, None);
      }
    }

    /** The end of signAndSendTransfer: there is no guard, and an id that is there is overwritten. */
    method SubscribeTransfer(cb: Callback, newId: int)
      modifies this`transfer
      ensures View() == Subscribe(old(View()), Transfer, cb, newId, newId)
    {
      transfer := transfer.(callback := Some(cb));
      transfer := transfer.(id := newId);
    }

    /** The end of submitAndSubcribeExtrinsic, likewise. */
    method SubscribeExtrinsic(cb: Callback, newId: int)
      modifies this`extrinsic
      ensures View() == Subscribe(old(View()), Extrinsic, cb, newId, newId)
    {
      extrinsic := extrinsic.(callback := Some(cb));
      extrinsic := extrinsic.(id := newId);
    }

    method SubscribeBalance(address: string, cb: Callback, newId: int) returns (asked: bool)
      modifies this`balance
      ensures View() == Subscribe(old(View()), Balance(address), cb, newId, newId)
      ensures asked == Asks(old(View()), Balance(address))
    {
      balance := balance.(callbacks := balance.callbacks[address := cb]);
      asked := address !in balance.ids;
      if asked {
        balance := balance.(ids := balance.ids[address := newId]);
      }
    }

    method UnsubscribeBalance(address: string) returns (closed: set<int>)
      modifies this`balance
      ensures View() == Unsubscribe(old(View()), Balance(address))
      ensures closed == ClosedBy(old(View()), Balance(address))
    {
      closed := {};
      if address in balance.ids {
        closed := {balance.ids[address]};
        balance := Table(balance.ids - {address}, balance.callbacks - {address});
      }
    }

    /** One loop over a table of ids. */
    static method FindKey(ids: map<string, int>, id: int) returns (r: Option<string>)
      ensures r.Some? ==> r.value in ids && ids[r.value] == id
      ensures r.None? ==> forall k :: k in ids ==> ids[k] != id
    {
      var rest := ids.Keys;
      while rest != {}
        invariant rest <= ids.Keys && forall k :: k in ids && k !in rest ==> ids[k] != id
        decreases |rest|
      {
        var k :| k in rest;
        if ids[k] == id {
          return Some(k);
        }
        rest := rest - {k};
      }
      r := None;
    }

    /** handleWsMessage: the callback last registered for the owner of the id is called, and no other. */
    method HandleWsMessage(id: int, u: Update, ghost h: seq<Event>) returns (called: Option<(Owner, Callback)>)
      requires id != 0 && Honest(h) && Refines(View(), h)
      modifies this`bestBlock, this`transfer
      ensures View() == Dispatch(old(View()), id, u)
      ensures forall o, cb :: called == Some((o, cb))
                <==> && Entry(h, o) == Some((id, cb))
                     && (o == Transfer ==> u.status == Ready || u.status == Final)
                     && (o == Era ==> old(bestBlock) != -1 && (isEpoch || u.eraComplete))
    {
      ghost var a := View();
      called := Route(id, u, h);
      forall o, cb {
        CalledIff(a, h, id, u, o, cb);
      }
    }

    /** The chain of tests and loops. */
    method Route(id: int, u: Update, ghost h: seq<Event>) returns (called: Option<(Owner, Callback)>)
      requires id != 0 && Honest(h) && Refines(View(), h)
      modifies this`bestBlock, this`transfer
      ensures View() == Dispatch(old(View()), id, u) && called == Called(old(View()), id, u)
    {
      called := None;
      ghost var a := View();
      OwnerOfIsOwner(a, h, id);
      if block.id == id {
        called := Some((Block, block.callback.value));
        if block.callback == Some(TrackBestBlock) {
          bestBlock := u.number;
        }
        return;
      }
      var key := FindKey(nonce.ids, id);
      if key.Some? {
        SameOwner(a, h, id, Nonce(key.value));
        called := Some((Nonce(key.value), nonce.callbacks[key.value]));
        return;
      }
      key := FindKey(balance.ids, id);
      if key.Some? {
        SameOwner(a, h, id, Balance(key.value));
        called := Some((Balance(key.value), balance.callbacks[key.value]));
        return;
      }
      if extrinsic.id == id {
        called := Some((Extrinsic, extrinsic.callback.value));
        return;
      }
      if transfer.id == id {
        if u.status == Ready {
          called := Some((Transfer, transfer.callback.value));
        } else if u.status == Final {
          called := Some((Transfer, transfer.callback.value));
          transfer := Slot(0, None);
        }
        return;
      }
      if era.id == id && bestBlock != -1 {
        if isEpoch || u.eraComplete {
          called := Some((Era, era.callback.value));
        }
        return;
      }
      if finalized.id == id {
        called := Some((FinalizedBlock, finalized.callback.value));
        return;
      }
      if runtime.id == id {
        called := Some((RuntimeVersion, runtime.callback.value));
        return;
      }
      key := FindKey(storage.ids, id);
      if key.Some? {
        SameOwner(a, h, id, Storage(key.value));
        called := Some((Storage(key.value), storage.callbacks[key.value]));
      }
    }
  }

  /** The order in which a table is searched does not matter. */
  lemma {:induction false} SameOwner(a: App, h: seq<Event>, id: int, o: Owner)
    requires Honest(h) && Refines(a, h) && id != 0 && o != Era && a.View(o).Some? && a.View(o).value.0 == id
    ensures OwnerOf(a, id) == Some(o)
  {
    OwnerOfIsOwner(a, h, id);
    var r := OwnerOf(a, id);
    assert a.View(o) == Entry(h, o);
    assert a.View(r.value) == Entry(h, r.value);
    if r.value != o { OwnersHaveDistinctIds(h, r.value, o); }
  }
}
