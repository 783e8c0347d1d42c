/**
 Creating a repository and adding a key slot without other clients
 (crates/fileferry-core/src/lib.rs, `create_repository` and
 `add_repository_key_slot`): what is stored, field by field, and when it
 succeeds.  The clients of module KeySlotRuns do the same in two steps.
 */
module KeySlotWrites {
  import opened Common
  import opened ObjectStore
  import opened KeySlots
  import opened KeySlotRuns

  type SharedStore = FakeObjectStore<SlotsKey, Document>

  /** What the stored slot must say. */
  function SlotMadeFrom(kdf: Kdf, passphrase: string, masterKey: nat, input: Input): StoredSlot {
    StoredSlot(kdf, Some(input.salt), Some(input.nonce),
               Wrapped(passphrase, kdf, input.salt, input.nonce, masterKey))
  }

  /** The parameters that the key derivation accepts. */
  predicate KdfIsAccepted(kdf: Kdf) {
    kdf.parallelism >= 1 && kdf.timeCost >= 1 && kdf.memoryCostKib >= 8 * kdf.parallelism
  }

  /** The result and the store after a create, whatever was there. */
  predicate Creates(check: Check, before: SlotStore, after: SlotStore, passphrase: string, kdf: Kdf, input: Input,
                    result: Result<Opened, SlotError>)
  {
    if Bootstrap in before then after == before && result == OpenWith(check, before, input.listing, passphrase)
    else if !KdfIsAccepted(kdf) then after == before && result == Err(Encryption)
    else
      && result == Ok(Opened(input.repositoryId, input.masterKey, 1))
      && after == before[Bootstrap := BootstrapDoc(true, 0, Some(input.repositoryId),
                                                   [SlotMadeFrom(kdf, passphrase, input.masterKey, input)], [])]
  }

  /** The result and the store after an add to a repository that the passphrase opens or does not open. */
  predicate Adds(check: Check, before: SlotStore, after: SlotStore, passphrase: string, newPassphrase: string, kdf: Kdf,
                 input: Input, result: Result<Opened, SlotError>)
  {
    match OpenWith(check, before, input.listing, passphrase)
    case Err(e) => after == before && result == Err(e)
    case Ok(Opened(repositoryId, masterKey, keySlots)) =>
      if !KdfIsAccepted(kdf) then after == before && result == Err(Encryption)
      else
        var key := SlotKey(input.slotId);
        var doc := SlotDoc(true, 0, Some(repositoryId), Some(input.slotId),
                           SlotMadeFrom(kdf, newPassphrase, masterKey, input),
                           Some(check(masterKey, repositoryId, input.slotId)));
        if key !in before then
          && after == before[key := doc] && result == Ok(Opened(repositoryId, masterKey, keySlots + 1))
        else
          && after == before
          && result == if before[key] == doc then Ok(Opened(repositoryId, masterKey, keySlots)) else Err(Conflict)
  }

  /** `create_repository` */
  method CreateRepository(store: SharedStore, check: Check, passphrase: string, kdf: Kdf, input: Input)
    returns (result: Result<Opened, SlotError>)
    modifies store
    ensures Creates(check, old(store.objects), store.objects, passphrase, kdf, input, result)
  {
    hide OpenWith;
    var present := store.Exists(Bootstrap);
    if present {
      result := OpenRepository(check, store.objects, input.listing, passphrase);
      return;
    }
    var slot := CreateSlot(input.masterKey, passphrase, kdf, input.salt, input.nonce);
    if slot.Err? {
      return Err(slot.error);
    }
    // Nobody else writes between the two operations, so the put creates the object.
    var status := store.PutIfAbsent(Bootstrap, NewBootstrap(input.repositoryId, slot.value));
    match status {
      case Ok(_) => return Ok(Opened(input.repositoryId, input.masterKey, 1));
      case Err(_) => return Err(Conflict);
    }
  }

  /** `add_repository_key_slot` */
  method AddKeySlot(store: SharedStore, check: Check, passphrase: string, newPassphrase: string, kdf: Kdf, input: Input)
    returns (result: Result<Opened, SlotError>)
    modifies store
    ensures Adds(check, old(store.objects), store.objects, passphrase, newPassphrase, kdf, input, result)
  {
    hide OpenWith;
    var current := OpenRepository(check, store.objects, input.listing, passphrase);
    if current.Err? {
      return current;
    }
    var slot := CreateSlot(current.value.masterKey, newPassphrase, kdf, input.salt, input.nonce);
    if slot.Err? {
      return Err(slot.error);
    }
    var status := store.PutIfAbsent(SlotKey(input.slotId), NewSlot(check, current.value, input.slotId, slot.value));
    match status {
      case Ok(Created) => return Ok(current.value.(keySlots := current.value.keySlots + 1));
      case Ok(AlreadyPresent) => return current;
      case Err(_) => return Err(Conflict);
    }
  }

  // ---------- The clients of module KeySlotRuns ----------

  lemma {:induction false} RunTwo(check: Check, w: World, a: Event, b: Event)
    ensures Run(check, w, [a, b]) == Step(check, Step(check, w, a.0, a.1), b.0, b.1)
  {
    hide Step;
    assert [a, b][..1] == [a] && [a][..0] == [];
    assert Run(check, w, [a]) == Step(check, Run(check, w, []), a.0, a.1);
  }

  /** A create that takes its two steps while all others pause. */
  lemma {:induction false} CreateIsARun(check: Check, w: World, c: nat, passphrase: string, kdf: Kdf, input: Input)
    requires c < |w.clients| && w.clients[c] == Creator(passphrase, kdf, CheckExists)
    requires IsListing(w.store, input.listing)
    ensures var end := Run(check, w, [(c, input), (c, input)]);
            && |end.clients| == |w.clients| && end.clients[c].Creator? && end.clients[c].phase.Finished?
            && end.clients == w.clients[c := end.clients[c]]
            && Creates(check, w.store, end.store, passphrase, kdf, input, end.clients[c].phase.result)
  {
    hide OpenWith, IsListing;
    RunTwo(check, w, (c, input), (c, input));
    if Bootstrap !in w.store && !Usable(kdf) {
      assert Step(check, w, c, input).clients[c].phase == Finished(Err(Encryption));
    }
  }

  /** An add that takes its two steps while all others pause. */
  lemma {:induction false} AddIsARun(check: Check, w: World, c: nat, passphrase: string, newPassphrase: string,
                                     kdf: Kdf, input: Input)
    requires c < |w.clients| && w.clients[c] == Adder(passphrase, newPassphrase, kdf, OpenFirst)
    requires IsListing(w.store, input.listing)
    ensures var end := Run(check, w, [(c, input), (c, input)]);
            && |end.clients| == |w.clients| && end.clients[c].Adder? && end.clients[c].phase.Finished?
            && end.clients == w.clients[c := end.clients[c]]
            && Adds(check, w.store, end.store, passphrase, newPassphrase, kdf, input, end.clients[c].phase.result)
  {
    hide OpenWith, IsListing;
    RunTwo(check, w, (c, input), (c, input));
  }

  /**
   A new repository with one more slot opens with exactly the two passphrases,
   and gives the master key it was created with.
   */
  lemma {:induction false} CreatedAndAddedOpens(check: Check, created: SlotStore, added: SlotStore, passphrase: string,
                                                newPassphrase: string, kdf: Kdf, newKdf: Kdf, first: Input,
                                                second: Input, other: string)
    requires KdfIsAccepted(kdf) && KdfIsAccepted(newKdf) && second.listing == []
    requires Creates(check, map[], created, passphrase, kdf, first,
                     Ok(Opened(first.repositoryId, first.masterKey, 1)))
    requires Adds(check, created, added, passphrase, newPassphrase, newKdf, second,
                  Ok(Opened(first.repositoryId, first.masterKey, 2)))
    ensures OpenWith(check, created, [], other)
            == if other == passphrase then Ok(Opened(first.repositoryId, first.masterKey, 1))
               else Err(Unlock(Decryption))
    ensures OpenWith(check, added, [SlotKey(second.slotId)], other)
            == if other == passphrase || other == newPassphrase
               then Ok(Opened(first.repositoryId, first.masterKey, 2)) else Err(Unlock(Decryption))
  {
    hide FirstUnlock, ReadExternals, Attempt;
    var slot := SlotMadeFrom(kdf, passphrase, first.masterKey, first);
    var all := [RepositorySlot(None, slot)];
    assert created == map[Bootstrap := BootstrapDoc(true, 0, Some(first.repositoryId), [slot], [])];
    assert InBootstrap([slot]) + [] == all;
    NothingExternal(created, first.repositoryId);
    OneSlotOpens(check, all, other, first.repositoryId, kdf, passphrase, first, []);
    OneSlotOpens(check, all, passphrase, first.repositoryId, kdf, passphrase, first, []);
    var key, newSlot := SlotKey(second.slotId), SlotMadeFrom(newKdf, newPassphrase, first.masterKey, second);
    var external := RepositorySlot(Some((second.slotId, check(first.masterKey, first.repositoryId, second.slotId))),
                                   newSlot);
    OneExternal(added, key, first.repositoryId, external);
    var both := all + [external];
    assert InBootstrap([slot]) + [external] == both;
    OneSlotOpens(check, both, other, first.repositoryId, kdf, passphrase, first, [external]);
    assert [external] == [external] + [];
    AddedSlotOpens(check, external, other, first.repositoryId, newKdf, newPassphrase, first.masterKey, second);
  }

  lemma {:induction false} NothingExternal(store: SlotStore, repositoryId: Id)
    ensures ReadExternals(store, [], repositoryId) == Ok([])
  {
  }

  lemma {:induction false} OneExternal(store: SlotStore, key: SlotsKey, repositoryId: Id, external: RepositorySlot)
    requires ReadExternal(store, key, repositoryId) == Ok(external)
    ensures ReadExternals(store, [key], repositoryId) == Ok([external])
  {
    hide ReadExternal;
    assert [key][..0] == [] && [] + [external] == [external];
    NothingExternal(store, repositoryId);
  }

  lemma {:induction false} OneSlotOpens(check: Check, slots: seq<RepositorySlot>, other: string, repositoryId: Id,
                                        kdf: Kdf, passphrase: string, input: Input, rest: seq<RepositorySlot>)
    requires KdfIsAccepted(kdf)
    requires slots == [RepositorySlot(None, SlotMadeFrom(kdf, passphrase, input.masterKey, input))] + rest
    ensures FirstUnlock(check, slots, other, repositoryId)
            == if other == passphrase then Ok(input.masterKey) else FirstUnlock(check, rest, other, repositoryId)
    ensures FirstUnlock(check, [], other, repositoryId) == Err(Unlock(Decryption))
  {
    assert slots[1..] == rest;
  }

  lemma {:induction false} AddedSlotOpens(check: Check, external: RepositorySlot, other: string, repositoryId: Id,
                                          kdf: Kdf, passphrase: string, masterKey: nat, input: Input)
    requires KdfIsAccepted(kdf)
    requires external == RepositorySlot(Some((input.slotId, check(masterKey, repositoryId, input.slotId))),
                                        SlotMadeFrom(kdf, passphrase, masterKey, input))
    ensures FirstUnlock(check, [external], other, repositoryId)
            == if other == passphrase then Ok(masterKey) else Err(Unlock(Decryption))
  {
    assert [external][1..] == [];
    assert FirstUnlock(check, [], other, repositoryId) == Err(Unlock(Decryption));
  }
}
