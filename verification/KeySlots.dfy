/**
 Opening a repository (crates/fileferry-core/src/lib.rs, `open_repository`
 and the bootstrap and key slot documents; crates/fileferry-crypto/src/lib.rs,
 `create_key_slot` and `unlock_master_key`).

 A wrapped master key records the passphrase, parameters, salt and nonce it
 was wrapped with, and unwraps only with those.  `None` stands for a field of
 the wrong length or form.
 */
module KeySlots {
  import opened Common
  import Encoding

  type Kdf = Encoding.KdfParams

  /** `KdfParams::validate` */
  predicate Usable(kdf: Kdf) {
    kdf.parallelism > 0 && kdf.timeCost > 0 && kdf.memoryCostKib >= 8 * kdf.parallelism
  }

  datatype Wrapped = Wrapped(passphrase: string, kdf: Kdf, salt: nat, nonce: nat, masterKey: nat) | Garbage(bytes: nat)

  datatype StoredSlot = StoredSlot(kdf: Kdf, salt: Option<nat>, nonce: Option<nat>, wrapped: Wrapped)

  datatype Document =
    | BootstrapDoc(magicOk: bool, version: nat, repositoryId: Option<Id>, slots: seq<StoredSlot>, features: seq<string>)
    | SlotDoc(magicOk: bool, version: nat, repositoryId: Option<Id>, slotId: Option<Id>, slot: StoredSlot,
              check: Option<nat>)
    | Undecodable(bytes: nat)

  /** Every key but the first lies under the key slot prefix. */
  datatype SlotsKey = Bootstrap | SlotKey(id: Id) | OtherSlotKey(name: string)

  type SlotStore = map<SlotsKey, Document>

  /** `master_key_check`: a keyed content id of the slot id. */
  type Check = (nat, Id, Id) -> nat

  ghost predicate ChecksDiffer(check: Check) {
    forall m, r, s, m', r', s' :: check(m, r, s) == check(m', r', s') ==> m == m' && r == r' && s == s'
  }

  const FORMAT_VERSION: nat := 0

  datatype UnlockError = BadKdf | Decryption

  datatype SlotError =
    | NotInitialized | BootstrapDecode | InvalidBootstrap | UnsupportedFormat(version: nat) | UnsupportedFeatures
    | SlotStorage(key: SlotsKey) | SlotDecode(key: SlotsKey) | InvalidSlot(key: SlotsKey) | Unlock(source: UnlockError)
    | Encryption | Conflict

  datatype Opened = Opened(repositoryId: Id, masterKey: nat, keySlots: nat)

  // ---------- Slots ----------

  /** `create_key_slot` */
  function CreateSlot(masterKey: nat, passphrase: string, kdf: Kdf, salt: nat, nonce: nat)
    : Result<StoredSlot, SlotError> {
    if !Usable(kdf) then Err(Encryption)
    else Ok(StoredSlot(kdf, Some(salt), Some(nonce), Wrapped(passphrase, kdf, salt, nonce, masterKey)))
  }

  /** `to_key_slot`, then `unlock_master_key`. */
  function UnlockSlot(passphrase: string, slot: StoredSlot): Result<nat, SlotError> {
    if slot.salt.None? || slot.nonce.None? then Err(InvalidBootstrap)
    else if !Usable(slot.kdf) then Err(Unlock(BadKdf))
    else if slot.wrapped.Wrapped?
            && slot.wrapped == Wrapped(passphrase, slot.kdf, slot.salt.value, slot.nonce.value, slot.wrapped.masterKey)
    then Ok(slot.wrapped.masterKey)
    else Err(Unlock(Decryption))
  }

  lemma SlotOpensForItsPassphrase(masterKey: nat, passphrase: string, other: string, kdf: Kdf, salt: nat, nonce: nat)
    requires Usable(kdf)
    ensures var slot := CreateSlot(masterKey, passphrase, kdf, salt, nonce);
            slot.Ok? && UnlockSlot(other, slot.value) ==
                        if other == passphrase then Ok(masterKey) else Err(Unlock(Decryption))
  {
  }

  /** A slot in the order in which it is tried; an external slot carries its id and its recorded check. */
  datatype RepositorySlot = RepositorySlot(external: Option<(Id, nat)>, stored: StoredSlot)

  function LoadBootstrap(store: SlotStore): Result<(Id, seq<StoredSlot>), SlotError> {
    if Bootstrap !in store then Err(NotInitialized)
    else
      match store[Bootstrap]
      case BootstrapDoc(magicOk, version, repositoryId, slots, features) =>
        if !magicOk then Err(InvalidBootstrap)
        else if version != FORMAT_VERSION then Err(UnsupportedFormat(version))
        else if repositoryId.None? || slots == [] then Err(InvalidBootstrap)
        else if features != [] then Err(UnsupportedFeatures)
        else Ok((repositoryId.value, slots))
      case _ => Err(BootstrapDecode)
  }

  /** Decoding and `StoredExternalKeySlot::validate`. */
  function ReadExternal(store: SlotStore, key: SlotsKey, repositoryId: Id): Result<RepositorySlot, SlotError> {
    if key !in store then Err(SlotStorage(key))
    else
      match store[key]
      case SlotDoc(magicOk, version, slotRepository, slotId, slot, check) =>
        if !magicOk then Err(InvalidSlot(key))
        else if version != FORMAT_VERSION then Err(UnsupportedFormat(version))
        else if slotRepository != Some(repositoryId) || slotId.None? || key != SlotKey(slotId.value) || check.None?
        then Err(InvalidSlot(key))
        else Ok(RepositorySlot(Some((slotId.value, check.value)), slot))
      case _ => Err(SlotDecode(key))
  }

  function InBootstrap(slots: seq<StoredSlot>): seq<RepositorySlot> {
    seq(|slots|, i requires 0 <= i < |slots| => RepositorySlot(None, slots[i]))
  }

  function ReadExternals(store: SlotStore, keys: seq<SlotsKey>, repositoryId: Id)
    : Result<seq<RepositorySlot>, SlotError> {
    if keys == [] then Ok([])
    else
      var before := ReadExternals(store, keys[..|keys| - 1], repositoryId);
      if before.Err? then before
      else
        var last := ReadExternal(store, keys[|keys| - 1], repositoryId);
        if last.Err? then Err(last.error) else Ok(before.value + [last.value])
  }

  /** What one slot decides; None leaves the decision to the next slot. */
  function Attempt(check: Check, slot: RepositorySlot, passphrase: string, repositoryId: Id)
    : Option<Result<nat, SlotError>> {
    match UnlockSlot(passphrase, slot.stored)
    case Err(Unlock(Decryption)) => None
    case Err(e) => Some(Err(e))
    case Ok(m) =>
      if slot.external.None? || check(m, repositoryId, slot.external.value.0) == slot.external.value.1 then Some(Ok(m))
      else Some(Err(InvalidSlot(SlotKey(slot.external.value.0))))
  }

  /** The first slot that decides. */
  function FirstUnlock(check: Check, slots: seq<RepositorySlot>, passphrase: string, repositoryId: Id)
    : Result<nat, SlotError> {
    if slots == [] then Err(Unlock(Decryption))
    else
      var first := Attempt(check, slots[0], passphrase, repositoryId);
      if first.Some? then first.value else FirstUnlock(check, slots[1..], passphrase, repositoryId)
  }

  /** `open_repository`, given the listing of the external slots. */
  function OpenWith(check: Check, store: SlotStore, listing: seq<SlotsKey>, passphrase: string)
    : Result<Opened, SlotError> {
    var bootstrap := LoadBootstrap(store);
    if bootstrap.Err? then Err(bootstrap.error)
    else
      var (repositoryId, slots) := bootstrap.value;
      var externals := ReadExternals(store, listing, repositoryId);
      if externals.Err? then Err(externals.error)
      else
        var all := InBootstrap(slots) + externals.value;
        var m := FirstUnlock(check, all, passphrase, repositoryId);
        if m.Err? then Err(m.error) else Ok(Opened(repositoryId, m.value, |all|))
  }

  /** The sorted listing of the key slot prefix is one such sequence. */
  ghost predicate IsListing(store: SlotStore, listing: seq<SlotsKey>) {
    && (forall k :: k in listing <==> k in store && k != Bootstrap)
    && (forall i, j :: 0 <= i < j < |listing| ==> listing[i] != listing[j])
  }

  // ---------- The loops ----------

  lemma {:induction false} ReadExternalsFails(store: SlotStore, keys: seq<SlotsKey>, repositoryId: Id, n: nat)
    requires n <= |keys| && ReadExternals(store, keys[..n], repositoryId).Err?
    ensures ReadExternals(store, keys, repositoryId) == ReadExternals(store, keys[..n], repositoryId)
    decreases |keys|
  {
    if n < |keys| {
      assert keys[..|keys| - 1][..n] == keys[..n];
      ReadExternalsFails(store, keys[..|keys| - 1], repositoryId, n);
    } else {
      assert keys[..n] == keys;
    }
  }

  /** `repository_key_slots` */
  method RepositoryKeySlots(store: SlotStore, listing: seq<SlotsKey>, repositoryId: Id, bootstrap: seq<StoredSlot>)
    returns (result: Result<seq<RepositorySlot>, SlotError>)
    ensures var externals := ReadExternals(store, listing, repositoryId);
            result == if externals.Err? then externals else Ok(InBootstrap(bootstrap) + externals.value)
  {
    var slots := InBootstrap(bootstrap);
    ghost var externals := [];
    for i := 0 to |listing|
      invariant ReadExternals(store, listing[..i], repositoryId) == Ok(externals)
      invariant slots == InBootstrap(bootstrap) + externals
    {
      assert listing[..i + 1][..i] == listing[..i];
      var external := ReadExternal(store, listing[i], repositoryId);
      if external.Err? {
        ReadExternalsFails(store, listing, repositoryId, i + 1);
        return Err(external.error);
      }
      slots := slots + [external.value];
      externals := externals + [external.value];
    }
    assert listing[..|listing|] == listing;
    return Ok(slots);
  }

  /** `open_repository` */
  method OpenRepository(check: Check, store: SlotStore, listing: seq<SlotsKey>, passphrase: string)
    returns (result: Result<Opened, SlotError>)
    ensures result == OpenWith(check, store, listing, passphrase)
  {
    hide ReadExternals, Attempt;
    var bootstrap := LoadBootstrap(store);
    if bootstrap.Err? {
      return Err(bootstrap.error);
    }
    var repositoryId := bootstrap.value.0;
    var slots := RepositoryKeySlots(store, listing, repositoryId, bootstrap.value.1);
    if slots.Err? {
      return Err(slots.error);
    }
    var all := slots.value;
    for i := 0 to |all|
      invariant FirstUnlock(check, all, passphrase, repositoryId)
                == FirstUnlock(check, all[i..], passphrase, repositoryId)
    {
      var decision := Attempt(check, all[i], passphrase, repositoryId);
      assert all[i..][0] == all[i] && all[i..][1..] == all[i + 1..];
      if decision.Some? {
        if decision.value.Err? {
          return Err(decision.value.error);
        }
        return Ok(Opened(repositoryId, decision.value.value, |all|));
      }
    }
    return Err(Unlock(Decryption));
  }

  // ---------- On any store ----------

  /**
   An external slot that the passphrase unlocks opens the repository exactly
   when its check was made for the master key it wraps, this repository and
   its own id.
   */
  lemma ExternalSlotOpensExactly(check: Check, slot: RepositorySlot, passphrase: string, repositoryId: Id,
                                 recorded: nat, forRepository: Id, forSlot: Id)
    requires ChecksDiffer(check) && slot.external.Some? && UnlockSlot(passphrase, slot.stored).Ok?
    requires slot.external.value.1 == check(recorded, forRepository, forSlot)
    ensures var decision := Attempt(check, slot, passphrase, repositoryId);
            decision.Some? && (decision.value.Ok? <==>
              UnlockSlot(passphrase, slot.stored).value == recorded && repositoryId == forRepository
              && slot.external.value.0 == forSlot)
  {
  }

  lemma {:induction false} FirstUnlockIsGenuine(check: Check, slots: seq<RepositorySlot>, passphrase: string,
                                                repositoryId: Id)
    returns (i: nat)
    requires FirstUnlock(check, slots, passphrase, repositoryId).Ok?
    ensures i < |slots|
    ensures Attempt(check, slots[i], passphrase, repositoryId)
            == Some(FirstUnlock(check, slots, passphrase, repositoryId))
    ensures forall j :: 0 <= j < i ==> UnlockSlot(passphrase, slots[j].stored) == Err(Unlock(Decryption))
    decreases |slots|
  {
    if Attempt(check, slots[0], passphrase, repositoryId).Some? {
      i := 0;
    } else {
      var k := FirstUnlockIsGenuine(check, slots[1..], passphrase, repositoryId);
      i := k + 1;
      forall j | 0 <= j < i
        ensures UnlockSlot(passphrase, slots[j].stored) == Err(Unlock(Decryption))
      {
        if j > 0 {
          assert slots[j] == slots[1..][j - 1];
        }
      }
    }
  }

  lemma {:induction false} ExternalsAreRead(store: SlotStore, keys: seq<SlotsKey>, repositoryId: Id)
    requires ReadExternals(store, keys, repositoryId).Ok?
    ensures |ReadExternals(store, keys, repositoryId).value| == |keys|
    ensures forall i :: 0 <= i < |keys| ==>
              ReadExternal(store, keys[i], repositoryId) == Ok(ReadExternals(store, keys, repositoryId).value[i])
    decreases |keys|
  {
    hide ReadExternal;
    if keys != [] {
      var init := keys[..|keys| - 1];
      ExternalsAreRead(store, init, repositoryId);
      forall i | 0 <= i < |init|
        ensures ReadExternal(store, keys[i], repositoryId) == Ok(ReadExternals(store, init, repositoryId).value[i])
      {
        assert keys[i] == init[i];
      }
    }
  }

  /** All slots before it fail to decrypt, it unlocks, and its check, if it has one, was made for the key it wraps. */
  predicate Decides(check: Check, slots: seq<RepositorySlot>, i: nat, passphrase: string, repositoryId: Id)
    requires i < |slots|
  {
    var m, external := UnlockSlot(passphrase, slots[i].stored), slots[i].external;
    && (forall j :: 0 <= j < i ==> UnlockSlot(passphrase, slots[j].stored) == Err(Unlock(Decryption)))
    && m.Ok?
    && (external.Some? ==> check(m.value, repositoryId, external.value.0) == external.value.1)
  }

  /** The loop yields exactly what the deciding slot wraps. */
  lemma {:induction false} DecidingSlotOpens(check: Check, slots: seq<RepositorySlot>, i: nat, passphrase: string,
                                             repositoryId: Id)
    requires i < |slots| && Decides(check, slots, i, passphrase, repositoryId)
    ensures FirstUnlock(check, slots, passphrase, repositoryId) == UnlockSlot(passphrase, slots[i].stored)
    decreases i
  {
    hide UnlockSlot;
    if i > 0 {
      var rest := slots[1..];
      assert UnlockSlot(passphrase, slots[0].stored) == Err(Unlock(Decryption));
      assert rest[i - 1] == slots[i] && forall j :: 0 <= j < i - 1 ==> rest[j] == slots[j + 1];
      DecidingSlotOpens(check, rest, i - 1, passphrase, repositoryId);
    }
  }

  /** The slots in the order in which they are tried, once all of them could be read. */
  function SlotsTried(store: SlotStore, listing: seq<SlotsKey>): seq<RepositorySlot>
    requires LoadBootstrap(store).Ok? && ReadExternals(store, listing, LoadBootstrap(store).value.0).Ok?
  {
    InBootstrap(LoadBootstrap(store).value.1) + ReadExternals(store, listing, LoadBootstrap(store).value.0).value
  }

  lemma OpenReadsSlots(check: Check, store: SlotStore, listing: seq<SlotsKey>, passphrase: string)
    requires LoadBootstrap(store).Ok?
    ensures var repositoryId := LoadBootstrap(store).value.0;
            var externals := ReadExternals(store, listing, repositoryId);
            && (OpenWith(check, store, listing, passphrase).Ok? ==> externals.Ok?)
            && (externals.Ok? ==>
                  var m := FirstUnlock(check, SlotsTried(store, listing), passphrase, repositoryId);
                  OpenWith(check, store, listing, passphrase)
                  == if m.Err? then Err(m.error) else Ok(Opened(repositoryId, m.value, |SlotsTried(store, listing)|)))
  {
    hide ReadExternals, LoadBootstrap, FirstUnlock, InBootstrap;
  }

  /**
   On any store whose slots can be read: the repository opens with no other
   master key than `masterKey` if and only if the slot that decides for this
   passphrase, if any does, wraps `masterKey`.
   */
  lemma {:induction false} OpensOnlyWithMasterExactly(check: Check, store: SlotStore, listing: seq<SlotsKey>,
                                                      passphrase: string, masterKey: nat)
    requires LoadBootstrap(store).Ok? && ReadExternals(store, listing, LoadBootstrap(store).value.0).Ok?
    ensures var all, repositoryId := SlotsTried(store, listing), LoadBootstrap(store).value.0;
            var result := OpenWith(check, store, listing, passphrase);
            (result.Ok? ==> result.value.masterKey == masterKey)
            <==> forall i :: 0 <= i < |all| && Decides(check, all, i, passphrase, repositoryId) ==>
                   UnlockSlot(passphrase, all[i].stored) == Ok(masterKey)
  {
    hide ReadExternals, LoadBootstrap, FirstUnlock, UnlockSlot, OpenWith, SlotsTried, Decides, Attempt;
    var all, repositoryId := SlotsTried(store, listing), LoadBootstrap(store).value.0;
    OpenReadsSlots(check, store, listing, passphrase);
    forall i | 0 <= i < |all| && Decides(check, all, i, passphrase, repositoryId)
      ensures FirstUnlock(check, all, passphrase, repositoryId) == UnlockSlot(passphrase, all[i].stored)
      ensures UnlockSlot(passphrase, all[i].stored).Ok?
    {
      DecidingSlotOpens(check, all, i, passphrase, repositoryId);
      DeciderUnlocks(check, all, i, passphrase, repositoryId);
    }
    if FirstUnlock(check, all, passphrase, repositoryId).Ok? {
      var i := FirstUnlockIsGenuine(check, all, passphrase, repositoryId);
      GenuineDecides(check, all, i, passphrase, repositoryId);
    }
  }

  lemma DeciderUnlocks(check: Check, slots: seq<RepositorySlot>, i: nat, passphrase: string, repositoryId: Id)
    requires i < |slots| && Decides(check, slots, i, passphrase, repositoryId)
    ensures UnlockSlot(passphrase, slots[i].stored).Ok?
  {
  }

  lemma GenuineDecides(check: Check, slots: seq<RepositorySlot>, i: nat, passphrase: string, repositoryId: Id)
    requires i < |slots| && Attempt(check, slots[i], passphrase, repositoryId).Some?
    requires Attempt(check, slots[i], passphrase, repositoryId).value.Ok?
    requires forall j :: 0 <= j < i ==> UnlockSlot(passphrase, slots[j].stored) == Err(Unlock(Decryption))
    ensures Decides(check, slots, i, passphrase, repositoryId)
    ensures UnlockSlot(passphrase, slots[i].stored) == Attempt(check, slots[i], passphrase, repositoryId).value
  {
    hide UnlockSlot;
  }

  /** Every external slot records the check of this master key. */
  predicate ChecksRecord(check: Check, store: SlotStore, repositoryId: Id, masterKey: nat) {
    forall k :: k in store && k.SlotKey? && store[k].SlotDoc? && store[k].check.Some? ==>
      store[k].check.value == check(masterKey, repositoryId, k.id)
  }

  /**
   Whatever else the store holds: an opened repository has the master key that
   the external slots' checks record, or one that a bootstrap slot yields for
   this passphrase.  An external slot that wraps another key than its check
   was made for never opens it.
   */
  lemma OpenedMasterIsRecorded(check: Check, store: SlotStore, listing: seq<SlotsKey>, passphrase: string,
                               masterKey: nat)
    requires ChecksDiffer(check) && LoadBootstrap(store).Ok? && OpenWith(check, store, listing, passphrase).Ok?
    requires ChecksRecord(check, store, LoadBootstrap(store).value.0, masterKey)
    ensures var result, slots := OpenWith(check, store, listing, passphrase).value, LoadBootstrap(store).value.1;
            && result.repositoryId == LoadBootstrap(store).value.0
            && (result.masterKey == masterKey
                || exists i :: 0 <= i < |slots| && UnlockSlot(passphrase, slots[i]) == Ok(result.masterKey))
  {
    hide ReadExternals, FirstUnlock, UnlockSlot, OpenWith, LoadBootstrap, ChecksRecord, ChecksDiffer, Decides;
    var (repositoryId, slots) := LoadBootstrap(store).value;
    OpenReadsSlots(check, store, listing, passphrase);
    var all := SlotsTried(store, listing);
    var i := FirstUnlockIsGenuine(check, all, passphrase, repositoryId);
    GenuineDecides(check, all, i, passphrase, repositoryId);
    DecidingSlotOpens(check, all, i, passphrase, repositoryId);
    if i < |slots| {
      assert all[i] == RepositorySlot(None, slots[i]);
    } else {
      ExternalDecides(check, store, listing, passphrase, repositoryId, masterKey, i - |slots|);
    }
  }

  lemma {:induction false} ExternalDecides(check: Check, store: SlotStore, listing: seq<SlotsKey>, passphrase: string,
                                           repositoryId: Id, masterKey: nat, k: nat)
    requires ChecksDiffer(check) && ChecksRecord(check, store, repositoryId, masterKey)
    requires LoadBootstrap(store).Ok? && LoadBootstrap(store).value.0 == repositoryId
    requires ReadExternals(store, listing, repositoryId).Ok? && k < |ReadExternals(store, listing, repositoryId).value|
    requires var i := |LoadBootstrap(store).value.1| + k;
             i < |SlotsTried(store, listing)| && Decides(check, SlotsTried(store, listing), i, passphrase, repositoryId)
    ensures UnlockSlot(passphrase, SlotsTried(store, listing)[|LoadBootstrap(store).value.1| + k].stored)
            == Ok(masterKey)
  {
    hide ReadExternals, UnlockSlot, LoadBootstrap;
    ExternalsAreRead(store, listing, repositoryId);
    assert ReadExternal(store, listing[k], repositoryId)
           == Ok(ReadExternals(store, listing, repositoryId).value[k]);
  }

  lemma {:induction false} OneExternal(store: SlotStore, key: SlotsKey, repositoryId: Id)
    requires ReadExternal(store, key, repositoryId).Ok?
    ensures ReadExternals(store, [key], repositoryId) == Ok([ReadExternal(store, key, repositoryId).value])
  {
    hide ReadExternal;
    var keys := [key];
    assert keys[..|keys| - 1] == [] && keys[|keys| - 1] == key;
    var none: seq<RepositorySlot> := [];
    assert ReadExternals(store, keys[..|keys| - 1], repositoryId) == Ok(none);
    assert none + [ReadExternal(store, key, repositoryId).value] == [ReadExternal(store, key, repositoryId).value];
  }

  lemma {:induction false} SecondDecides(check: Check, first: RepositorySlot, second: RepositorySlot,
                                         passphrase: string, repositoryId: Id)
    requires Attempt(check, first, passphrase, repositoryId).None?
    requires Attempt(check, second, passphrase, repositoryId).Some?
    ensures FirstUnlock(check, [first, second], passphrase, repositoryId)
            == Attempt(check, second, passphrase, repositoryId).value
  {
    hide Attempt;
    assert [first, second][1..] == [second];
  }

  /** A slot that wraps another master key, with a check made for that key, does open: only the check is compared. */
  lemma ConsistentSlotOpens(check: Check)
    ensures var kdf := Encoding.KdfParams(32, 3, 4);
            var first := CreateSlot(1, "first", kdf, 10, 20);
            var second := CreateSlot(2, "second", kdf, 11, 21);
            first.Ok? && second.Ok?
            && (var store := map[Bootstrap := BootstrapDoc(true, FORMAT_VERSION, Some(7), [first.value], []),
                                 SlotKey(5) := SlotDoc(true, FORMAT_VERSION, Some(7), Some(5), second.value,
                                                       Some(check(2, 7, 5)))];
                OpenWith(check, store, [SlotKey(5)], "second") == Ok(Opened(7, 2, 2)))
  {
    var kdf := Encoding.KdfParams(32, 3, 4);
    var first, second := CreateSlot(1, "first", kdf, 10, 20).value, CreateSlot(2, "second", kdf, 11, 21).value;
    var store := map[Bootstrap := BootstrapDoc(true, FORMAT_VERSION, Some(7), [first], []),
                     SlotKey(5) := SlotDoc(true, FORMAT_VERSION, Some(7), Some(5), second, Some(check(2, 7, 5)))];
    var external := RepositorySlot(Some((5, check(2, 7, 5))), second);
    OneExternal(store, SlotKey(5), 7);
    assert ReadExternals(store, [SlotKey(5)], 7) == Ok([external]);
    var all := InBootstrap([first]) + [external];
    assert all == [RepositorySlot(None, first), external];
    assert UnlockSlot("second", second) == Ok(2);
    assert Attempt(check, external, "second", 7) == Some(Ok(2));
    SecondDecides(check, RepositorySlot(None, first), external, "second", 7);
  }
}
