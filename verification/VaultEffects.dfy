/** What each request to the vault changes, row by row and secret by secret. */
module VaultEffects {
  // Each effect is written out over the rows before and after; none names what the service computes with.

  import opened Text
  import opened Vault

  // Another row of the same user and provider carries the label.
  predicate Clashes(rows: Rows, id: Id, user: Id, provider: string, name: string) {
    exists other :: other in rows && other != id &&
      rows[other].user == user && rows[other].provider == provider && rows[other].name == name
  }

  lemma ClashIff(rows: Rows, id: Id, user: Id, provider: string, name: string)
    ensures LabelTaken(rows, id, user, provider, name) <==> Clashes(rows, id, user, provider, name)
  {
    if LabelTaken(rows, id, user, provider, name) {
      var other :| other in rows && other != id && IsOwned(rows, other, user, provider) && rows[other].name == name;
    }
    if Clashes(rows, id, user, provider, name) {
      var other :| other in rows && other != id &&
        rows[other].user == user && rows[other].provider == provider && rows[other].name == name;
      assert IsOwned(rows, other, user, provider);
    }
  }

  predicate OwnsSome(rows: Rows, user: Id, provider: string) {
    exists id :: id in rows && rows[id].user == user && rows[id].provider == provider
  }

  lemma OwnsIff(rows: Rows, user: Id, provider: string)
    ensures HasKey(rows, user, provider) <==> OwnsSome(rows, user, provider)
  {
    if OwnsSome(rows, user, provider) {
      var id :| id in rows && rows[id].user == user && rows[id].provider == provider;
      assert IsOwned(rows, id, user, provider);
    }
  }

  // ---------------------------------------------------------------- a new key

  lemma CreateAnswers(rows: Rows, c: Call)
    requires c.Create?
    ensures CreateAnswer(rows, c) == Refused <==> !c.accepted
    ensures CreateAnswer(rows, c) == StoreFailed <==> c.accepted && !c.putWorks
    ensures CreateAnswer(rows, c) == Duplicate <==> c.accepted && c.putWorks && Clashes(rows, c.id, c.user, c.provider, c.name)
    ensures CreateAnswer(rows, c) == CommitFailed <==>
      c.accepted && c.putWorks && !Clashes(rows, c.id, c.user, c.provider, c.name) && !c.commitWorks
    ensures CreateAnswer(rows, c) == Done <==>
      c.accepted && c.putWorks && !Clashes(rows, c.id, c.user, c.provider, c.name) && c.commitWorks
  {
    hide LabelTaken, Clashes;
    ClashIff(rows, c.id, c.user, c.provider, c.name);
  }

  predicate SameUserAndProvider(a: Credential, b: Credential) {
    a.user == b.user && a.provider == b.provider
  }

  // Of the other rows only the owner's change, and of them only the default flag, which goes.
  ghost predicate OnlyDefaultMoved(before: Rows, after: Rows, id: Id)
    requires id in after
  {
    forall other :: other in before && other != id ==>
      && other in after
      && after[other] == before[other].(isDefault := before[other].isDefault && !SameUserAndProvider(before[other], after[id]))
  }

  ghost predicate OthersKept(before: Rows, after: Rows, id: Id) {
    forall other :: other in before && other != id ==> other in after && after[other] == before[other]
  }

  // A key that everything let through is an active row with the asked fields, and the owner's only default if
  // that was asked or it is its first; any other request leaves the rows alone.
  lemma CreateChanges(s: State, c: Call, t: State)
    requires c.Create? && Step(s, c, t)
    ensures CreateAnswer(s.rows, c) != Done ==> t.rows == s.rows
    ensures CreateAnswer(s.rows, c) == Done ==>
      var isDefault := c.makeDefault || !OwnsSome(s.rows, c.user, c.provider);
      && t.rows.Keys == s.rows.Keys + {c.id}
      && t.rows[c.id] == Credential(c.user, c.provider, c.name, Active, isDefault, c.backend, c.now)
      && (isDefault ==> OnlyDefaultMoved(s.rows, t.rows, c.id))
      && (!isDefault ==> OthersKept(s.rows, t.rows, c.id))
  {
    hide LabelTaken, HasKey, OwnsSome, ClearDefaults;
    OwnsIff(s.rows, c.user, c.provider);
  }

  // A secret stays in the remote store for a new row, and for a refused one whose cleanup failed.
  lemma CreateStores(s: State, c: Call, t: State, id: Id)
    requires c.Create? && Step(s, c, t)
    ensures id != c.id ==> (id in t.secrets <==> id in s.secrets)
    ensures c.backend == Local ==> t.secrets == s.secrets
    ensures c.backend == Remote && CreateAnswer(s.rows, c) == Done ==> c.id in t.secrets
    ensures c.backend == Remote && CreateAnswer(s.rows, c) in {Duplicate, CommitFailed} ==> (c.id in t.secrets <==> !c.deleteWorks)
    ensures CreateAnswer(s.rows, c) in {Refused, StoreFailed} ==> t.secrets == s.secrets
  {
    hide LabelTaken, HasKey, MakeDefault;
  }

  // ---------------------------------------------------------------- a changed key

  predicate WantsTakenLabel(rows: Rows, c: Call)
    requires c.Update? && c.id in rows
  {
    && c.newName.Some? && c.newName.value != rows[c.id].name
    && Clashes(rows, c.id, c.user, rows[c.id].provider, c.newName.value)
  }

  lemma UpdateAnswers(rows: Rows, c: Call)
    requires c.Update?
    ensures UpdateAnswer(rows, c) == NotFound <==> !(c.id in rows && rows[c.id].user == c.user)
    ensures c.id in rows && rows[c.id].user == c.user ==>
      var stored := c.replacement ==> c.accepted && c.putWorks;
      && (UpdateAnswer(rows, c) == Refused <==> c.replacement && !c.accepted)
      && (UpdateAnswer(rows, c) == StoreFailed <==> c.replacement && c.accepted && !c.putWorks)
      && (UpdateAnswer(rows, c) == Duplicate <==> stored && WantsTakenLabel(rows, c))
      && (UpdateAnswer(rows, c) == CommitFailed <==> stored && !WantsTakenLabel(rows, c) && !c.commitWorks)
      && (UpdateAnswer(rows, c) == Done <==> stored && !WantsTakenLabel(rows, c) && c.commitWorks)
  {
    hide LabelTaken, Clashes;
    if c.id in rows && c.newName.Some? {
      ClashIff(rows, c.id, c.user, rows[c.id].provider, c.newName.value);
    }
  }

  // A change that goes through makes a replaced key active, sets the new label if one is given, moves the
  // default if that is asked, and touches nothing else; any other request leaves the rows alone.
  lemma UpdateChanges(s: State, c: Call, t: State)
    requires c.Update? && Step(s, c, t)
    ensures UpdateAnswer(s.rows, c) != Done ==> t.rows == s.rows
    ensures UpdateAnswer(s.rows, c) == Done ==>
      && t.rows.Keys == s.rows.Keys
      && t.rows[c.id].user == s.rows[c.id].user && t.rows[c.id].provider == s.rows[c.id].provider
      && t.rows[c.id].backend == s.rows[c.id].backend && t.rows[c.id].created == s.rows[c.id].created
      && t.rows[c.id].status == (if c.replacement then Active else s.rows[c.id].status)
      && t.rows[c.id].name == (if c.newName == None then s.rows[c.id].name else c.newName.value)
      && t.rows[c.id].isDefault == (s.rows[c.id].isDefault || c.makeDefault)
      && (c.makeDefault ==> OnlyDefaultMoved(s.rows, t.rows, c.id))
      && (!c.makeDefault ==> OthersKept(s.rows, t.rows, c.id))
  {
    hide LabelTaken, ClearDefaults;
  }

  // The request put a new key into the remote store.
  predicate PutsRemotely(s: State, c: Call)
    requires c.Update?
  {
    && c.replacement && c.accepted && c.putWorks
    && c.id in s.rows && s.rows[c.id].user == c.user && s.rows[c.id].backend == Remote
  }

  // A replacement that reached the remote store is there even if the request fails after it.
  lemma UpdateStores(s: State, c: Call, t: State, id: Id)
    requires c.Update? && Step(s, c, t)
    ensures id in t.secrets <==> id in s.secrets || (id == c.id && PutsRemotely(s, c))
  {
    hide LabelTaken, MakeDefault;
  }

  // ---------------------------------------------------------------- a deleted key

  lemma DeleteAnswers(rows: Rows, c: Call)
    requires c.Delete?
    ensures DeleteAnswer(rows, c) == NotFound <==> !(c.id in rows && rows[c.id].user == c.user)
    ensures c.id in rows && rows[c.id].user == c.user ==>
      var gone := rows[c.id].backend == Local || c.deleteWorks;
      && (DeleteAnswer(rows, c) == StoreFailed <==> !gone)
      && (DeleteAnswer(rows, c) == CommitFailed <==> gone && !c.commitWorks)
      && (DeleteAnswer(rows, c) == Done <==> gone && c.commitWorks)
  {
  }

  predicate IsUsable(rows: Rows, id: Id, user: Id, provider: string) {
    id in rows && rows[id].user == user && rows[id].provider == provider && rows[id].status == Active
  }

  // Some usable key that is not younger than any other of them takes over, and no other row changes.
  ghost predicate TakesOver(rest: Rows, after: Rows, user: Id, provider: string, heir: Id) {
    && IsUsable(rest, heir, user, provider)
    && (forall other :: IsUsable(rest, other, user, provider) ==> rest[heir].created <= rest[other].created)
    && after.Keys == rest.Keys && after[heir] == rest[heir].(isDefault := true) && OthersKept(rest, after, heir)
  }

  // A deletion that goes through removes the row; if it was the default, an oldest usable key of its owner
  // becomes the default, if there is one. Otherwise the rows stay.
  lemma DeleteChanges(s: State, c: Call, t: State)
    requires c.Delete? && Step(s, c, t)
    ensures DeleteAnswer(s.rows, c) != Done ==> t.rows == s.rows
    ensures DeleteAnswer(s.rows, c) == Done ==>
      var rest, provider := s.rows - {c.id}, s.rows[c.id].provider;
      if s.rows[c.id].isDefault && (exists id :: IsUsable(rest, id, c.user, provider))
      then exists heir :: TakesOver(rest, t.rows, c.user, provider, heir)
      else t.rows == rest
  {
    if DeleteAnswer(s.rows, c) == Done && s.rows[c.id].isDefault {
      var rest, provider := s.rows - {c.id}, s.rows[c.id].provider;
      UsableIff(rest, c.user, provider);
      if HasActive(rest, c.user, provider) {
        var id :| id in rest && IsOldestActive(rest, id, c.user, provider) && t.rows == rest[id := rest[id].(isDefault := true)];
        OldestIff(rest, id, c.user, provider);
        assert TakesOver(rest, t.rows, c.user, provider, id);
      }
    }
  }

  lemma UsableIff(rows: Rows, user: Id, provider: string)
    ensures HasActive(rows, user, provider) <==> exists id :: IsUsable(rows, id, user, provider)
  {
    if id :| IsUsable(rows, id, user, provider) {
      assert IsActive(rows, id, user, provider);
    }
    if HasActive(rows, user, provider) {
      var id :| id in rows && IsActive(rows, id, user, provider);
      assert IsUsable(rows, id, user, provider);
    }
  }

  lemma OldestIff(rows: Rows, id: Id, user: Id, provider: string)
    ensures IsOldestActive(rows, id, user, provider) <==>
      && IsUsable(rows, id, user, provider)
      && forall other :: IsUsable(rows, other, user, provider) ==> rows[id].created <= rows[other].created
  {
    assert forall other :: IsUsable(rows, other, user, provider) <==> IsActive(rows, other, user, provider);
  }

  // The request had an owned key deleted from the remote store.
  predicate DeletesRemotely(s: State, c: Call)
    requires c.Delete?
  {
    c.id in s.rows && s.rows[c.id].user == c.user && s.rows[c.id].backend == Remote && c.deleteWorks
  }

  // The secret of an owned remote key is gone once the store deleted it, also when the commit then fails.
  lemma DeleteStores(s: State, c: Call, t: State, id: Id)
    requires c.Delete? && Step(s, c, t)
    ensures id in t.secrets <==> id in s.secrets && !(id == c.id && DeletesRemotely(s, c))
  {
  }

  // ---------------------------------------------------------------- verdicts

  // A verdict on an owned key is its new status; nothing else changes.
  lemma VerdictChanges(s: State, c: Call, t: State)
    requires c.Verify? && Step(s, c, t)
    ensures t.secrets == s.secrets && t.rows.Keys == s.rows.Keys && OthersKept(s.rows, t.rows, c.id)
    ensures c.id in s.rows ==> t.rows[c.id] == s.rows[c.id].(status :=
      if s.rows[c.id].user != c.user || c.verdict == None then s.rows[c.id].status
      else if c.verdict == Some(true) then Active
      else Invalid)
  {
  }

  lemma RejectionChanges(s: State, c: Call, t: State)
    requires c.MarkRejected? && Step(s, c, t)
    ensures t.secrets == s.secrets && t.rows.Keys == s.rows.Keys && OthersKept(s.rows, t.rows, c.id)
    ensures c.id in s.rows ==> t.rows[c.id] == s.rows[c.id].(status := Invalid)
  {
  }

  // ---------------------------------------------------------------- choosing

  // The active keys of an owner are listed default first and then by age, so that the list is one of these.
  lemma CandidateOrder(rows: Rows, user: Id, provider: string, list: seq<Id>, i: nat, j: nat)
    requires AreCandidates(rows, user, provider, list) && i < j < |list|
    ensures IsUsable(rows, list[i], user, provider) && IsUsable(rows, list[j], user, provider)
    ensures rows[list[j]].isDefault ==> rows[list[i]].isDefault
    ensures rows[list[i]].isDefault == rows[list[j]].isDefault ==> rows[list[i]].created <= rows[list[j]].created
  {
    assert list[i] in list && list[j] in list;
  }
}
