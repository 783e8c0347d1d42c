/**
 Which bootstrap and key slot documents are accepted, exactly, and what the
 refusals say (crates/fileferry-core/src/lib.rs, `load_repository_bootstrap`
 and `StoredExternalKeySlot::validate`; crates/fileferry-crypto/src/lib.rs,
 `unlock_master_key`).
 */
module KeySlotDocuments {
  import opened Common
  import opened KeySlots

  /** A bootstrap document is accepted with magic, version 0, an id, some slot and no features. */
  lemma BootstrapLoadsExactly(store: SlotStore, id: Id, slots: seq<StoredSlot>)
    ensures LoadBootstrap(store) == Ok((id, slots))
            <==> Bootstrap in store && slots != [] && store[Bootstrap] == BootstrapDoc(true, 0, Some(id), slots, [])
  {
  }

  lemma BootstrapFaults(store: SlotStore)
    requires LoadBootstrap(store).Err?
    ensures match LoadBootstrap(store).error
            case NotInitialized => Bootstrap !in store
            case BootstrapDecode => Bootstrap in store && !store[Bootstrap].BootstrapDoc?
            case UnsupportedFormat(v) =>
              && Bootstrap in store && store[Bootstrap].BootstrapDoc? && store[Bootstrap].magicOk
              && v == store[Bootstrap].version && v != 0
            case InvalidBootstrap =>
              && Bootstrap in store && store[Bootstrap].BootstrapDoc?
              && (store[Bootstrap].magicOk ==>
                    && store[Bootstrap].version == 0
                    && (store[Bootstrap].repositoryId.None? || store[Bootstrap].slots == []))
            case UnsupportedFeatures =>
              && Bootstrap in store && store[Bootstrap].BootstrapDoc? && store[Bootstrap].magicOk
              && store[Bootstrap].version == 0 && store[Bootstrap].features != []
              && store[Bootstrap].repositoryId.Some? && store[Bootstrap].slots != []
            case _ => false
  {
  }

  /** A listed slot is accepted under its own id's key, with magic, version 0, this repository's id and a check. */
  lemma ExternalReadsExactly(store: SlotStore, key: SlotsKey, repositoryId: Id, id: Id, check: nat, slot: StoredSlot)
    ensures ReadExternal(store, key, repositoryId) == Ok(RepositorySlot(Some((id, check)), slot))
            <==> && key == SlotKey(id) && key in store
                 && store[key] == SlotDoc(true, 0, Some(repositoryId), Some(id), slot, Some(check))
    ensures ReadExternal(store, key, repositoryId).Ok? ==> ReadExternal(store, key, repositoryId).value.external.Some?
  {
  }

  lemma ExternalFaults(store: SlotStore, key: SlotsKey, repositoryId: Id)
    requires ReadExternal(store, key, repositoryId).Err?
    ensures match ReadExternal(store, key, repositoryId).error
            case SlotStorage(k) => k == key && key !in store
            case SlotDecode(k) => k == key && key in store && !store[key].SlotDoc?
            case UnsupportedFormat(v) =>
              key in store && store[key].SlotDoc? && store[key].magicOk && v == store[key].version && v != 0
            case InvalidSlot(k) =>
              && k == key && key in store && store[key].SlotDoc?
              && (store[key].magicOk ==>
                    && store[key].version == 0
                    && !exists id, check, slot ::
                         && key == SlotKey(id)
                         && store[key] == SlotDoc(true, 0, Some(repositoryId), Some(id), slot, Some(check)))
            case _ => false
  {
  }

  /** A slot unlocks with usable parameters and the passphrase, parameters, salt and nonce it was wrapped with. */
  lemma UnlocksExactly(passphrase: string, slot: StoredSlot, masterKey: nat)
    ensures UnlockSlot(passphrase, slot) == Ok(masterKey)
            <==> && slot.salt.Some? && slot.nonce.Some?
                 && slot.kdf.parallelism >= 1 && slot.kdf.timeCost >= 1
                 && slot.kdf.memoryCostKib >= 8 * slot.kdf.parallelism
                 && slot.wrapped == Wrapped(passphrase, slot.kdf, slot.salt.value, slot.nonce.value, masterKey)
  {
  }

  lemma UnlockFaults(passphrase: string, slot: StoredSlot)
    requires UnlockSlot(passphrase, slot).Err?
    ensures var e := UnlockSlot(passphrase, slot).error;
            && (e == InvalidBootstrap <==> slot.salt.None? || slot.nonce.None?)
            && (e == Unlock(BadKdf) <==> slot.salt.Some? && slot.nonce.Some? && !Usable(slot.kdf))
            && (e == Unlock(Decryption) <==> slot.salt.Some? && slot.nonce.Some? && Usable(slot.kdf))
  {
  }

  /** What one tried slot decides: only a failed decryption is left to the next one. */
  lemma AttemptDecides(check: Check, slot: RepositorySlot, passphrase: string, repositoryId: Id)
    ensures var decision, m := Attempt(check, slot, passphrase, repositoryId), UnlockSlot(passphrase, slot.stored);
            && (decision.None? <==> m == Err(Unlock(Decryption)))
            && (m.Err? && m.error != Unlock(Decryption) ==> decision == Some(Err(m.error)))
            && (m.Ok? && slot.external.None? ==> decision == Some(Ok(m.value)))
            && (m.Ok? && slot.external.Some? ==>
                  var (id, recorded) := slot.external.value;
                  decision == Some(if recorded == check(m.value, repositoryId, id) then Ok(m.value)
                                   else Err(InvalidSlot(SlotKey(id)))))
  {
  }
}
