/**
 Any number of clients create, open and add key slots to one repository at
 once (crates/fileferry-core/src/lib.rs, `create_repository`,
 `open_repository` and `add_repository_key_slot`) on an atomic store, each
 stoppable after any step.
 */
module KeySlotRuns {
  import opened Common
  import opened ObjectStore
  import opened KeySlots

  datatype Phase =
    | CheckExists
    | PutBootstrap(repositoryId: Id, masterKey: nat, slot: StoredSlot)
    | OpenExisting
    | OpenFirst
    | PutSlot(current: Opened, slotId: Id, slot: StoredSlot)
    | Finished(result: Result<Opened, SlotError>)

  datatype Client =
    | Creator(passphrase: string, kdf: Kdf, phase: Phase)
    | Opener(passphrase: string, phase: Phase)
    | Adder(passphrase: string, newPassphrase: string, kdf: Kdf, phase: Phase)

  datatype World = World(store: SlotStore, clients: seq<Client>)

  /** What a step takes from outside: fresh random values, and the order of a listing. */
  datatype Input = Input(repositoryId: Id, masterKey: nat, slotId: Id, salt: nat, nonce: nat, listing: seq<SlotsKey>)

  function NewBootstrap(repositoryId: Id, slot: StoredSlot): Document {
    BootstrapDoc(true, FORMAT_VERSION, Some(repositoryId), [slot], [])
  }

  function NewSlot(check: Check, current: Opened, slotId: Id, slot: StoredSlot): Document {
    SlotDoc(true, FORMAT_VERSION, Some(current.repositoryId), Some(slotId), slot,
            Some(check(current.masterKey, current.repositoryId, slotId)))
  }

  function CreateStep(check: Check, store: SlotStore, passphrase: string, kdf: Kdf, phase: Phase,
                      input: Input): (SlotStore, Phase) {
    match phase
    case CheckExists =>
      if Bootstrap in store then (store, OpenExisting)
      else
        (match CreateSlot(input.masterKey, passphrase, kdf, input.salt, input.nonce)
         case Err(e) => (store, Finished(Err(e)))
         case Ok(slot) => (store, PutBootstrap(input.repositoryId, input.masterKey, slot)))
    case PutBootstrap(repositoryId, masterKey, slot) =>
      var put := Put(store, Bootstrap, NewBootstrap(repositoryId, slot));
      (put.objects,
       match put.status
       case Ok(Created) => Finished(Ok(Opened(repositoryId, masterKey, 1)))
       case Ok(AlreadyPresent) => OpenExisting
       case Err(_) => Finished(Err(Conflict)))
    case OpenExisting => (store, Finished(OpenWith(check, store, input.listing, passphrase)))
    case _ => (store, phase)
  }

  function AddStep(check: Check, store: SlotStore, passphrase: string, newPassphrase: string, kdf: Kdf, phase: Phase,
                   input: Input)
    : (SlotStore, Phase)
  {
    match phase
    case OpenFirst =>
      (match OpenWith(check, store, input.listing, passphrase)
       case Err(e) => (store, Finished(Err(e)))
       case Ok(current) =>
         match CreateSlot(current.masterKey, newPassphrase, kdf, input.salt, input.nonce)
         case Err(e) => (store, Finished(Err(e)))
         case Ok(slot) => (store, PutSlot(current, input.slotId, slot)))
    case PutSlot(current, slotId, slot) =>
      var put := Put(store, SlotKey(slotId), NewSlot(check, current, slotId, slot));
      (put.objects,
       match put.status
       case Ok(status) => Finished(Ok(current.(keySlots := current.keySlots + if status.Created? then 1 else 0)))
       case Err(_) => Finished(Err(Conflict)))
    case _ => (store, phase)
  }

  function OpenStep(check: Check, store: SlotStore, passphrase: string, phase: Phase, input: Input): Phase {
    if phase.OpenExisting? then Finished(OpenWith(check, store, input.listing, passphrase)) else phase
  }

  function ClientStep(check: Check, store: SlotStore, client: Client, input: Input): (SlotStore, Client) {
    match client
    case Creator(passphrase, kdf, phase) =>
      var (next, after) := CreateStep(check, store, passphrase, kdf, phase, input);
      (next, Creator(passphrase, kdf, after))
    case Opener(passphrase, phase) => (store, Opener(passphrase, OpenStep(check, store, passphrase, phase, input)))
    case Adder(passphrase, newPassphrase, kdf, phase) =>
      var (next, after) := AddStep(check, store, passphrase, newPassphrase, kdf, phase, input);
      (next, Adder(passphrase, newPassphrase, kdf, after))
  }

  /** A step that lists must be given a listing. */
  ghost function Step(check: Check, w: World, c: nat, input: Input): World {
    if c >= |w.clients| || !IsListing(w.store, input.listing) then w
    else
      var (store, client) := ClientStep(check, w.store, w.clients[c], input);
      World(store, w.clients[c := client])
  }

  type Event = (nat, Input)

  ghost function Run(check: Check, w: World, events: seq<Event>): World {
    if events == [] then w
    else
      var last := events[|events| - 1];
      Step(check, Run(check, w, events[..|events| - 1]), last.0, last.1)
  }

  predicate Starting(client: Client) {
    match client
    case Creator(_, _, phase) => phase == CheckExists
    case Opener(_, phase) => phase == OpenExisting
    case Adder(_, _, _, phase) => phase == OpenFirst
  }

  ghost predicate Init(w: World) {
    w.store == map[] && forall i :: 0 <= i < |w.clients| ==> Starting(w.clients[i])
  }

  // ---------- What every step keeps ----------

  predicate MadeBy(slot: StoredSlot, passphrase: string, masterKey: nat) {
    && slot.salt.Some? && slot.nonce.Some?
    && CreateSlot(masterKey, passphrase, slot.kdf, slot.salt.value, slot.nonce.value) == Ok(slot)
  }

  /** The repository that the bootstrap object names. */
  datatype Identity = Identity(repositoryId: Id, masterKey: nat)

  /** The bootstrap object is the work of one create. */
  predicate HasIdentity(store: SlotStore, identity: Identity) {
    && Bootstrap in store && store[Bootstrap].BootstrapDoc? && |store[Bootstrap].slots| == 1
    && store[Bootstrap] == NewBootstrap(identity.repositoryId, store[Bootstrap].slots[0])
    && store[Bootstrap].slots[0].wrapped.Wrapped?
    && MadeBy(store[Bootstrap].slots[0], store[Bootstrap].slots[0].wrapped.passphrase, identity.masterKey)
  }

  /** The object is the work of one add to this repository. */
  predicate GoodSlot(check: Check, store: SlotStore, identity: Identity, key: SlotsKey)
    requires key in store
  {
    && key.SlotKey? && store[key].SlotDoc? && store[key].slot.wrapped.Wrapped?
    && store[key] == NewSlot(check, Opened(identity.repositoryId, identity.masterKey, 0), key.id, store[key].slot)
    && MadeBy(store[key].slot, store[key].slot.wrapped.passphrase, identity.masterKey)
  }

  ghost predicate GoodStore(check: Check, store: SlotStore, identity: Identity) {
    && HasIdentity(store, identity)
    && forall k :: k in store && k != Bootstrap ==> GoodSlot(check, store, identity, k)
  }

  predicate MadeWith(slot: StoredSlot, passphrase: string) {
    slot.wrapped.Wrapped? && slot.wrapped.passphrase == passphrase
  }

  /** Some slot of the document was made with this passphrase. */
  predicate Makes(doc: Document, passphrase: string) {
    match doc
    case BootstrapDoc(_, _, _, slots, _) =>
      exists i :: 0 <= i < |slots| && MadeWith(slots[i], passphrase)
    case SlotDoc(_, _, _, _, slot, _) => MadeWith(slot, passphrase)
    case Undecodable(_) => false
  }

  ghost predicate HasSlotFor(store: SlotStore, passphrase: string) {
    exists k :: k in store && Makes(store[k], passphrase)
  }

  predicate SameRepository(current: Opened, identity: Identity) {
    current.repositoryId == identity.repositoryId && current.masterKey == identity.masterKey
  }

  /** What a client holds agrees with the repository, and its passphrases have slots once it succeeded. */
  ghost predicate ClientOk(store: SlotStore, identity: Identity, client: Client) {
    match client.phase
    case PutBootstrap(_, masterKey, slot) => client.Creator? && MadeBy(slot, client.passphrase, masterKey)
    case PutSlot(current, _, slot) =>
      client.Adder? && SameRepository(current, identity) && HasSlotFor(store, client.passphrase)
      && MadeBy(slot, client.newPassphrase, current.masterKey)
    case Finished(Ok(current)) =>
      SameRepository(current, identity) && HasSlotFor(store, client.passphrase)
      && (client.Adder? ==> HasSlotFor(store, client.newPassphrase))
    case _ => true
  }

  predicate Early(client: Client) {
    match client.phase
    case PutBootstrap(_, masterKey, slot) => client.Creator? && MadeBy(slot, client.passphrase, masterKey)
    case PutSlot(_, _, _) => false
    case Finished(result) => result.Err?
    case _ => true
  }

  /** No create has succeeded and nothing is stored, or all that is stored and known belongs to one repository. */
  ghost predicate Inv(check: Check, w: World, identity: Identity) {
    if Bootstrap !in w.store then w.store == map[] && forall i :: 0 <= i < |w.clients| ==> Early(w.clients[i])
    else GoodStore(check, w.store, identity)
         && forall i :: 0 <= i < |w.clients| ==> ClientOk(w.store, identity, w.clients[i])
  }

  // ---------- Opening a good store ----------

  /** An added slot as `repository_key_slots` hands it on. */
  function TriedAs(check: Check, store: SlotStore, identity: Identity, key: SlotsKey): RepositorySlot
    requires key in store && GoodSlot(check, store, identity, key)
  {
    RepositorySlot(Some((key.id, check(identity.masterKey, identity.repositoryId, key.id))), store[key].slot)
  }

  lemma {:induction false} ExternalsAreGood(check: Check, store: SlotStore, identity: Identity, keys: seq<SlotsKey>)
    requires GoodStore(check, store, identity)
    requires forall i :: 0 <= i < |keys| ==> keys[i] in store && keys[i] != Bootstrap
    ensures var result := ReadExternals(store, keys, identity.repositoryId);
            result.Ok? && |result.value| == |keys|
            && forall i :: 0 <= i < |keys| ==>
                 GoodSlot(check, store, identity, keys[i])
                 && result.value[i] == TriedAs(check, store, identity, keys[i])
    decreases |keys|
  {
    if keys != [] {
      var init, last := keys[..|keys| - 1], keys[|keys| - 1];
      ExternalsAreGood(check, store, identity, init);
      assert GoodSlot(check, store, identity, last);
      forall i | 0 <= i < |init|
        ensures keys[i] == init[i]
      {
      }
    }
  }

  /** Each slot either passes on or opens with the repository's master key. */
  predicate SlotIsHonest(check: Check, slot: RepositorySlot, passphrase: string, identity: Identity) {
    Attempt(check, slot, passphrase, identity.repositoryId) ==
       if MadeWith(slot.stored, passphrase) then Some(Ok(identity.masterKey)) else None
  }

  lemma {:induction false} HonestSlotsOpen(check: Check, slots: seq<RepositorySlot>, passphrase: string,
                                           identity: Identity)
    requires forall i :: 0 <= i < |slots| ==> SlotIsHonest(check, slots[i], passphrase, identity)
    ensures FirstUnlock(check, slots, passphrase, identity.repositoryId) ==
            if exists i :: 0 <= i < |slots| && MadeWith(slots[i].stored, passphrase)
            then Ok(identity.masterKey) else Err(Unlock(Decryption))
    decreases |slots|
  {
    hide Attempt;
    if slots != [] {
      assert SlotIsHonest(check, slots[0], passphrase, identity);
      var rest := slots[1..];
      HonestSlotsOpen(check, rest, passphrase, identity);
      if i :| 0 <= i < |slots| && MadeWith(slots[i].stored, passphrase) && i > 0 {
        assert rest[i - 1] == slots[i];
      }
      if i :| 0 <= i < |rest| && MadeWith(rest[i].stored, passphrase) {
        assert slots[i + 1] == rest[i];
      }
    }
  }

  /** The slots that are tried are those of the bootstrap object and of the listed objects. */
  ghost predicate SlotsOf(check: Check, store: SlotStore, identity: Identity, listing: seq<SlotsKey>,
                          all: seq<RepositorySlot>)
    requires GoodStore(check, store, identity)
    requires forall i :: 0 <= i < |listing| ==> listing[i] in store && listing[i] != Bootstrap
  {
    && |all| == 1 + |listing|
    && all[0] == RepositorySlot(None, store[Bootstrap].slots[0])
    && forall i :: 0 <= i < |listing| ==>
         (GoodSlot(check, store, identity, listing[i]) && all[i + 1] == TriedAs(check, store, identity, listing[i]))
  }

  lemma SlotsAreHonest(check: Check, store: SlotStore, identity: Identity, listing: seq<SlotsKey>,
                       all: seq<RepositorySlot>, passphrase: string)
    requires GoodStore(check, store, identity) && IsListing(store, listing)
    requires SlotsOf(check, store, identity, listing, all)
    ensures forall i :: 0 <= i < |all| ==> SlotIsHonest(check, all[i], passphrase, identity)
    ensures HasSlotFor(store, passphrase)
            <==> exists i :: 0 <= i < |all| && MadeWith(all[i].stored, passphrase)
  {
    hide IsListing;
    ListedAreStored(store, listing);
    forall i | 0 <= i < |all|
      ensures SlotIsHonest(check, all[i], passphrase, identity)
      ensures MadeWith(all[i].stored, passphrase) ==> HasSlotFor(store, passphrase)
    {
      var key := if i == 0 then Bootstrap else listing[i - 1];
      if MadeWith(all[i].stored, passphrase) {
        assert key in store;
        assert MadeWith(if i == 0 then store[key].slots[0] else store[key].slot, passphrase);
        assert Makes(store[key], passphrase);
      }
    }
    if HasSlotFor(store, passphrase) {
      var k :| k in store && Makes(store[k], passphrase);
      var i := SlotIndex(store, listing, k);
      assert k != Bootstrap ==> GoodSlot(check, store, identity, k);
      assert MadeWith(all[i].stored, passphrase);
    }
  }

  lemma SlotIndex(store: SlotStore, listing: seq<SlotsKey>, k: SlotsKey) returns (i: nat)
    requires IsListing(store, listing) && k in store
    ensures i <= |listing| && (if k == Bootstrap then i == 0 else i > 0 && listing[i - 1] == k)
  {
    if k == Bootstrap {
      i := 0;
    } else {
      assert k in listing;
      var j :| 0 <= j < |listing| && listing[j] == k;
      i := j + 1;
    }
  }

  /** A passphrase opens the repository if and only if it made some visible slot, whatever the order of the listing. */
  lemma OpensExactlyForSlots(check: Check, store: SlotStore, identity: Identity, listing: seq<SlotsKey>,
                             passphrase: string)
    requires GoodStore(check, store, identity) && IsListing(store, listing)
    ensures OpenWith(check, store, listing, passphrase) ==
            if HasSlotFor(store, passphrase)
            then Ok(Opened(identity.repositoryId, identity.masterKey, 1 + |listing|)) else Err(Unlock(Decryption))
  {
    hide GoodStore, IsListing, SlotsOf, HasSlotFor, FirstUnlock, ReadExternals, LoadBootstrap, InBootstrap,
         SlotIsHonest;
    ListedAreStored(store, listing);
    GoodBootstrapLoads(check, store, identity);
    var all := TriedSlots(check, store, identity, listing);
    SlotsAreHonest(check, store, identity, listing, all, passphrase);
    HonestSlotsOpen(check, all, passphrase, identity);
    assert |all| == 1 + |listing| by { TriedCount(check, store, identity, listing, all); }
  }

  lemma GoodBootstrapLoads(check: Check, store: SlotStore, identity: Identity)
    requires GoodStore(check, store, identity)
    ensures Bootstrap in store && store[Bootstrap].BootstrapDoc?
    ensures LoadBootstrap(store) == Ok((identity.repositoryId, store[Bootstrap].slots))
  {
  }

  lemma TriedCount(check: Check, store: SlotStore, identity: Identity, listing: seq<SlotsKey>, all: seq<RepositorySlot>)
    requires GoodStore(check, store, identity)
    requires forall i :: 0 <= i < |listing| ==> listing[i] in store && listing[i] != Bootstrap
    requires SlotsOf(check, store, identity, listing, all)
    ensures |all| == 1 + |listing|
  {
  }

  lemma TriedSlots(check: Check, store: SlotStore, identity: Identity,
                   listing: seq<SlotsKey>) returns (all: seq<RepositorySlot>)
    requires GoodStore(check, store, identity)
    requires forall i :: 0 <= i < |listing| ==> listing[i] in store && listing[i] != Bootstrap
    ensures Bootstrap in store && store[Bootstrap].BootstrapDoc?
    ensures ReadExternals(store, listing, identity.repositoryId).Ok?
    ensures all == InBootstrap(store[Bootstrap].slots) + ReadExternals(store, listing, identity.repositoryId).value
    ensures SlotsOf(check, store, identity, listing, all)
  {
    hide ReadExternals, GoodSlot;
    ExternalsAreGood(check, store, identity, listing);
    all := InBootstrap(store[Bootstrap].slots) + ReadExternals(store, listing, identity.repositoryId).value;
  }

  lemma ListedAreStored(store: SlotStore, listing: seq<SlotsKey>)
    requires IsListing(store, listing)
    ensures forall i :: 0 <= i < |listing| ==> listing[i] in store && listing[i] != Bootstrap
  {
    forall i | 0 <= i < |listing|
      ensures listing[i] in store && listing[i] != Bootstrap
    {
      assert listing[i] in listing;
    }
  }

  lemma OpenOfNothing(check: Check, store: SlotStore, listing: seq<SlotsKey>, passphrase: string)
    requires Bootstrap !in store
    ensures OpenWith(check, store, listing, passphrase) == Err(NotInitialized)
  {
  }

  // ---------- Steps ----------

  lemma BootstrapGivesIdentity(check: Check, repositoryId: Id, masterKey: nat, slot: StoredSlot, passphrase: string)
    requires MadeBy(slot, passphrase, masterKey)
    ensures GoodStore(check, map[Bootstrap := NewBootstrap(repositoryId, slot)], Identity(repositoryId, masterKey))
    ensures HasSlotFor(map[Bootstrap := NewBootstrap(repositoryId, slot)], passphrase)
  {
    var doc := NewBootstrap(repositoryId, slot);
    var store := map[Bootstrap := doc];
    assert MadeWith(doc.slots[0], passphrase);
    assert Bootstrap in store && Makes(store[Bootstrap], passphrase);
  }

  lemma AddKeepsGood(check: Check, store: SlotStore, identity: Identity, current: Opened, slotId: Id,
                     slot: StoredSlot, passphrase: string)
    requires GoodStore(check, store, identity) && SameRepository(current, identity)
    requires MadeBy(slot, passphrase, current.masterKey)
    ensures var put := Put(store, SlotKey(slotId), NewSlot(check, current, slotId, slot));
            && GoodStore(check, put.objects, identity) && Grows(store, put.objects)
            && (put.status.Ok? ==> HasSlotFor(put.objects, passphrase))
  {
    hide MadeBy;
    assert slot.wrapped.Wrapped? && slot.wrapped.passphrase == passphrase by {
      MadeSlotIsWrapped(slot, passphrase, current.masterKey);
    }
    var put := Put(store, SlotKey(slotId), NewSlot(check, current, slotId, slot));
    forall k | k in put.objects && k != Bootstrap
      ensures GoodSlot(check, put.objects, identity, k)
    {
      if k in store {
        assert GoodSlot(check, store, identity, k);
      }
    }
    if put.status.Ok? {
      assert MadeWith(slot, passphrase);
      assert SlotKey(slotId) in put.objects && Makes(put.objects[SlotKey(slotId)], passphrase);
    }
  }

  lemma MadeSlotIsWrapped(slot: StoredSlot, passphrase: string, masterKey: nat)
    requires MadeBy(slot, passphrase, masterKey)
    ensures slot.wrapped.Wrapped? && slot.wrapped.passphrase == passphrase
  {
  }

  lemma SlotsStay(earlier: SlotStore, later: SlotStore, passphrase: string)
    requires Grows(earlier, later) && HasSlotFor(earlier, passphrase)
    ensures HasSlotFor(later, passphrase)
  {
    var k :| k in earlier && Makes(earlier[k], passphrase);
    assert k in later && Makes(later[k], passphrase);
  }

  lemma ClientStaysOk(earlier: SlotStore, later: SlotStore, identity: Identity, client: Client)
    requires Grows(earlier, later) && ClientOk(earlier, identity, client)
    ensures ClientOk(later, identity, client)
  {
    hide HasSlotFor, Grows;
    match client.phase
    case PutSlot(_, _, _) => SlotsStay(earlier, later, client.passphrase);
    case Finished(Ok(_)) =>
      SlotsStay(earlier, later, client.passphrase);
      if client.Adder? {
        SlotsStay(earlier, later, client.newPassphrase);
      }
    case _ =>
  }

  lemma EarlyIsOk(store: SlotStore, identity: Identity, client: Client)
    requires Early(client)
    ensures ClientOk(store, identity, client)
  {
  }

  /** Before any create has succeeded, a step changes nothing or makes the bootstrap object. */
  lemma FirstStep(check: Check, client: Client, input: Input)
    requires Early(client)
    ensures var (store, next) := ClientStep(check, map[], client, input);
            if Bootstrap !in store then store == map[] && Early(next)
            else client.Creator? && client.phase.PutBootstrap?
                 && (var identity := Identity(client.phase.repositoryId, client.phase.masterKey);
                     GoodStore(check, store, identity) && ClientOk(store, identity, next))
  {
    var phase := client.phase;
    if client.Creator? && phase.PutBootstrap? {
      BootstrapGivesIdentity(check, phase.repositoryId, phase.masterKey, phase.slot, client.passphrase);
      assert map[][Bootstrap := NewBootstrap(phase.repositoryId, phase.slot)]
             == map[Bootstrap := NewBootstrap(phase.repositoryId, phase.slot)];
    } else {
      OpenOfNothing(check, map[], input.listing, client.passphrase);
    }
  }

  lemma LaterStep(check: Check, store: SlotStore, identity: Identity, client: Client, input: Input)
    requires GoodStore(check, store, identity) && IsListing(store, input.listing) && ClientOk(store, identity, client)
    ensures var (after, next) := ClientStep(check, store, client, input);
            GoodStore(check, after, identity) && Grows(store, after) && ClientOk(after, identity, next)
  {
    hide GoodStore, HasSlotFor, IsListing, NewSlot, NewBootstrap, OpenWith;
    assert Bootstrap in store by { GoodStoreHasBootstrap(check, store, identity); }
    OpensExactlyForSlots(check, store, identity, input.listing, client.passphrase);
    match client.phase
    case PutSlot(current, slotId, slot) =>
      AddKeepsGood(check, store, identity, current, slotId, slot, client.newPassphrase);
      var put := Put(store, SlotKey(slotId), NewSlot(check, current, slotId, slot));
      SlotsStay(store, put.objects, client.passphrase);
    case _ =>
  }

  lemma GoodStoreHasBootstrap(check: Check, store: SlotStore, identity: Identity)
    requires GoodStore(check, store, identity)
    ensures Bootstrap in store
  {
  }

  lemma InitHasInv(check: Check, w: World, identity: Identity)
    requires Init(w)
    ensures Inv(check, w, identity)
  {
    forall i | 0 <= i < |w.clients|
      ensures Early(w.clients[i])
    {
      assert Starting(w.clients[i]);
    }
  }

  /** Every step keeps the invariant, changes no object, and keeps the identity once there is one. */
  lemma StepKeepsInv(check: Check, w: World, c: nat, input: Input, identity: Identity) returns (later: Identity)
    requires Inv(check, w, identity)
    ensures Inv(check, Step(check, w, c, input), later)
    ensures Grows(w.store, Step(check, w, c, input).store)
    ensures Bootstrap in w.store ==> later == identity
  {
    hide GoodStore, ClientOk, Early, ClientStep, IsListing;
    later := identity;
    if c < |w.clients| && IsListing(w.store, input.listing) {
      var client := w.clients[c];
      var (store, next) := ClientStep(check, w.store, client, input);
      var after := Step(check, w, c, input);
      if Bootstrap in w.store {
        LaterStep(check, w.store, identity, client, input);
        GoodStoreHasBootstrap(check, store, identity);
        OthersStayOk(check, w, after, c, identity);
      } else {
        FirstStep(check, client, input);
        if Bootstrap in store {
          later := Identity(client.phase.repositoryId, client.phase.masterKey);
          forall i | 0 <= i < |after.clients|
            ensures ClientOk(store, later, after.clients[i])
          {
            if i != c {
              EarlyIsOk(store, later, w.clients[i]);
            }
          }
        }
      }
    }
  }

  lemma OthersStayOk(check: Check, w: World, after: World, c: nat, identity: Identity)
    requires c < |w.clients| == |after.clients| && Grows(w.store, after.store)
    requires forall i :: 0 <= i < |w.clients| ==> ClientOk(w.store, identity, w.clients[i])
    requires forall i :: 0 <= i < |w.clients| && i != c ==> after.clients[i] == w.clients[i]
    requires ClientOk(after.store, identity, after.clients[c])
    ensures forall i :: 0 <= i < |after.clients| ==> ClientOk(after.store, identity, after.clients[i])
  {
    hide ClientOk, Grows;
    forall i | 0 <= i < |after.clients|
      ensures ClientOk(after.store, identity, after.clients[i])
    {
      if i != c {
        ClientStaysOk(w.store, after.store, identity, w.clients[i]);
      }
    }
  }

  lemma {:induction false} RunKeepsInv(check: Check, w: World, events: seq<Event>,
                                       identity: Identity) returns (later: Identity)
    requires Inv(check, w, identity)
    ensures Inv(check, Run(check, w, events), later)
    ensures Grows(w.store, Run(check, w, events).store)
    ensures Bootstrap in w.store ==> later == identity
    decreases |events|
  {
    hide Inv, Step;
    if events == [] {
      later := identity;
    } else {
      var n := |events| - 1;
      var between := RunKeepsInv(check, w, events[..n], identity);
      later := StepKeepsInv(check, Run(check, w, events[..n]), events[n].0, events[n].1, between);
    }
  }

  // ---------- Theorems over runs ----------

  predicate Succeeded(client: Client) {
    client.phase.Finished? && client.phase.result.Ok?
  }

  /** All creates, opens and adds that succeed agree on one repository and one master key. */
  lemma {:induction false} OneRepository(check: Check, w0: World, events: seq<Event>, i: nat, j: nat)
    requires Init(w0)
    requires var w := Run(check, w0, events);
             i < |w.clients| && j < |w.clients| && Succeeded(w.clients[i]) && Succeeded(w.clients[j])
    ensures var w := Run(check, w0, events);
            var a, b := w.clients[i].phase.result.value, w.clients[j].phase.result.value;
            a.repositoryId == b.repositoryId && a.masterKey == b.masterKey
  {
    hide GoodStore, HasSlotFor, Run, Init;
    InitHasInv(check, w0, Identity(0, 0));
    var identity := RunKeepsInv(check, w0, events, Identity(0, 0));
    var w := Run(check, w0, events);
    SuccessHasRepository(check, w, identity, i);
    SuccessHasRepository(check, w, identity, j);
  }

  lemma SuccessHasRepository(check: Check, w: World, identity: Identity, i: nat)
    requires Inv(check, w, identity) && i < |w.clients| && Succeeded(w.clients[i])
    ensures Bootstrap in w.store && GoodStore(check, w.store, identity)
    ensures SameRepository(w.clients[i].phase.result.value, identity) && HasSlotFor(w.store, w.clients[i].passphrase)
    ensures w.clients[i].Adder? ==> HasSlotFor(w.store, w.clients[i].newPassphrase)
  {
    hide GoodStore, HasSlotFor;
    assert Bootstrap !in w.store ==> Early(w.clients[i]);
    assert ClientOk(w.store, identity, w.clients[i]);
  }

  /** In every reachable state a passphrase opens the repository if and only if it made some visible slot. */
  lemma {:induction false} OpensIffItHasASlot(check: Check, w0: World, events: seq<Event>, listing: seq<SlotsKey>,
                                              passphrase: string)
    requires Init(w0) && IsListing(Run(check, w0, events).store, listing)
    ensures var store := Run(check, w0, events).store;
            && (OpenWith(check, store, listing, passphrase).Ok? <==> HasSlotFor(store, passphrase))
            && (OpenWith(check, store, listing, passphrase).Err? ==>
                  OpenWith(check, store, listing, passphrase).error
                  == if Bootstrap in store then Unlock(Decryption) else NotInitialized)
  {
    hide GoodStore, Run, Init, OpenWith, IsListing;
    InitHasInv(check, w0, Identity(0, 0));
    var identity := RunKeepsInv(check, w0, events, Identity(0, 0));
    var store := Run(check, w0, events).store;
    if Bootstrap in store {
      OpensExactlyForSlots(check, store, identity, listing, passphrase);
    } else {
      OpenOfNothing(check, store, listing, passphrase);
      assert !HasSlotFor(store, passphrase);
    }
  }

  /** Later creates and adds never break an earlier unlock, and never change what it yields. */
  lemma {:induction false} UnlocksLast(check: Check, w0: World, events: seq<Event>, more: seq<Event>,
                                       passphrase: string,
                    listing: seq<SlotsKey>, laterListing: seq<SlotsKey>)
    requires Init(w0)
    requires var w := Run(check, w0, events);
             && IsListing(w.store, listing) && IsListing(Run(check, w, more).store, laterListing)
             && OpenWith(check, w.store, listing, passphrase).Ok?
    ensures var w := Run(check, w0, events);
            var before := OpenWith(check, w.store, listing, passphrase);
            var after := OpenWith(check, Run(check, w, more).store, laterListing, passphrase);
            after.Ok? && after.value.repositoryId == before.value.repositoryId
            && after.value.masterKey == before.value.masterKey
  {
    hide GoodStore, HasSlotFor, Run, Init, OpenWith, IsListing, Grows;
    InitHasInv(check, w0, Identity(0, 0));
    var identity := RunKeepsInv(check, w0, events, Identity(0, 0));
    var w := Run(check, w0, events);
    var later := RunKeepsInv(check, w, more, identity);
    if Bootstrap !in w.store {
      OpenOfNothing(check, w.store, listing, passphrase);
    } else {
      OpensExactlyForSlots(check, w.store, identity, listing, passphrase);
      SlotsStay(w.store, Run(check, w, more).store, passphrase);
      StillStored(w.store, Run(check, w, more).store);
      OpensExactlyForSlots(check, Run(check, w, more).store, identity, laterListing, passphrase);
    }
  }

  lemma StillStored(earlier: SlotStore, later: SlotStore)
    requires Grows(earlier, later) && Bootstrap in earlier
    ensures Bootstrap in later
  {
  }

  /** After a create, an open or an add has succeeded, its passphrases open the same repository in every later state. */
  lemma {:induction false} SuccessLasts(check: Check, w0: World, events: seq<Event>, more: seq<Event>, i: nat,
                                        listing: seq<SlotsKey>, passphrase: string)
    requires Init(w0)
    requires var w := Run(check, w0, events);
             && i < |w.clients| && Succeeded(w.clients[i]) && IsListing(Run(check, w, more).store, listing)
             && (passphrase == w.clients[i].passphrase
                 || (w.clients[i].Adder? && passphrase == w.clients[i].newPassphrase))
    ensures var w := Run(check, w0, events);
            var result := OpenWith(check, Run(check, w, more).store, listing, passphrase);
            result.Ok? && result.value.repositoryId == w.clients[i].phase.result.value.repositoryId
            && result.value.masterKey == w.clients[i].phase.result.value.masterKey
  {
    hide GoodStore, HasSlotFor, Run, Init, OpenWith, IsListing, Grows;
    InitHasInv(check, w0, Identity(0, 0));
    var identity := RunKeepsInv(check, w0, events, Identity(0, 0));
    var w := Run(check, w0, events);
    var later := RunKeepsInv(check, w, more, identity);
    SuccessHasRepository(check, w, identity, i);
    SlotsStay(w.store, Run(check, w, more).store, passphrase);
    StillStored(w.store, Run(check, w, more).store);
    OpensExactlyForSlots(check, Run(check, w, more).store, identity, listing, passphrase);
  }

  /** Reading the bootstrap and the listed slots later gives the open of the listing, so an open may be one step. */
  lemma OpenLaterIsTheSame(check: Check, earlier: SlotStore, later: SlotStore, listing: seq<SlotsKey>,
                           passphrase: string)
    requires Grows(earlier, later) && Bootstrap in earlier && IsListing(earlier, listing)
    ensures OpenWith(check, later, listing, passphrase) == OpenWith(check, earlier, listing, passphrase)
  {
    hide ReadExternals, FirstUnlock;
    forall i | 0 <= i < |listing|
      ensures listing[i] in earlier
    {
      assert listing[i] in listing;
    }
    if LoadBootstrap(earlier).Ok? {
      SlotsReadLaterAreTheSame(earlier, later, listing, LoadBootstrap(earlier).value.0);
    }
  }

  /** Reading the listed slots later gives what it gives at the time of the listing. */
  lemma {:induction false} SlotsReadLaterAreTheSame(earlier: SlotStore, later: SlotStore, keys: seq<SlotsKey>,
                                                    repositoryId: Id)
    requires Grows(earlier, later) && forall i :: 0 <= i < |keys| ==> keys[i] in earlier
    ensures ReadExternals(later, keys, repositoryId) == ReadExternals(earlier, keys, repositoryId)
    decreases |keys|
  {
    if keys != [] {
      SlotsReadLaterAreTheSame(earlier, later, keys[..|keys| - 1], repositoryId);
      assert keys[|keys| - 1] in earlier;
    }
  }
}
