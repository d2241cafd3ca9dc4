/** What every run of requests keeps in the vault, and which key a turn then uses. */
module VaultLaws {
  import opened Text
  import opened Vault

  // ---------------------------------------------------------------- one default, unique labels

  lemma MakeDefaultKeepsSound(rows: Rows, id: Id)
    requires id in rows && IsSound(rows)
    ensures IsSound(MakeDefault(rows, id))
  {
    hide ClearDefaults, MakeDefault;
    var after := MakeDefault(rows, id);
    assert forall a, b :: a in rows && b in rows ==> SameOwner(after[a], after[b]) == SameOwner(rows[a], rows[b]);
    assert OneDefault(after);
    assert UniqueLabels(after);
  }

  lemma AddKeepsSound(rows: Rows, id: Id, row: Credential)
    requires id !in rows && IsSound(rows) && !row.isDefault && !LabelTaken(rows, id, row.user, row.provider, row.name)
    ensures IsSound(rows[id := row])
  {
  }

  lemma ChangeKeepsSound(rows: Rows, id: Id, row: Credential)
    requires id in rows && IsSound(rows) && SameOwner(row, rows[id]) && row.isDefault == rows[id].isDefault
    requires row.name == rows[id].name || !LabelTaken(rows, id, row.user, row.provider, row.name)
    ensures IsSound(rows[id := row])
  {
  }

  lemma RemoveKeepsSound(rows: Rows, id: Id)
    requires IsSound(rows)
    ensures IsSound(rows - {id})
  {
  }

  // A new default keeps the rows sound when the owner has none.
  lemma PromoteKeepsSound(rows: Rows, id: Id)
    requires id in rows && IsSound(rows)
    requires forall other :: other in rows && SameOwner(rows[other], rows[id]) ==> !rows[other].isDefault
    ensures IsSound(rows[id := rows[id].(isDefault := true)])
  {
  }

  lemma CreateKeepsSound(rows: Rows, c: Call)
    requires c.Create? && c.id !in rows && IsSound(rows) && CreateAnswer(rows, c) == Done
    ensures IsSound(RowsCreated(rows, c))
  {
    hide IsSound, LabelTaken, MakeDefault, HasKey;
    var row := Credential(c.user, c.provider, c.name, Active, false, c.backend, c.now);
    AddKeepsSound(rows, c.id, row);
    MakeDefaultKeepsSound(rows[c.id := row], c.id);
  }

  lemma UpdateKeepsSound(rows: Rows, c: Call)
    requires c.Update? && IsSound(rows) && UpdateAnswer(rows, c) == Done
    ensures IsSound(RowsUpdated(rows, c))
  {
    hide IsSound, LabelTaken, MakeDefault;
    var row := Changed(rows[c.id], c.replacement, c.newName);
    ChangeKeepsSound(rows, c.id, row);
    MakeDefaultKeepsSound(rows[c.id := row], c.id);
  }

  // Once the default is deleted, its owner has no default left.
  lemma NoDefaultLeft(rows: Rows, id: Id, other: Id)
    requires id in rows && rows[id].isDefault && OneDefault(rows) && other in rows - {id} && SameOwner(rows[other], rows[id])
    ensures !rows[other].isDefault
  {
  }

  lemma DeleteKeepsSound(s: State, c: Call, t: State)
    requires c.Delete? && IsSound(s.rows) && Deleted(s, c, t)
    ensures IsSound(t.rows)
  {
    hide IsSound, IsOldestActive, HasActive;
    if DeleteAnswer(s.rows, c) == Done {
      var rest := s.rows - {c.id};
      RemoveKeepsSound(s.rows, c.id);
      if s.rows[c.id].isDefault && HasActive(rest, c.user, s.rows[c.id].provider) {
        var id :| id in rest && IsOldestActive(rest, id, c.user, s.rows[c.id].provider) && t.rows == rest[id := rest[id].(isDefault := true)];
        OldestIsOwned(rest, id, c.user, s.rows[c.id].provider);
        SoundHasOneDefault(s.rows);
        forall other | other in rest && SameOwner(rest[other], rest[id]) ensures !rest[other].isDefault {
          NoDefaultLeft(s.rows, c.id, other);
        }
        PromoteKeepsSound(rest, id);
      }
    }
  }

  lemma OldestIsOwned(rows: Rows, id: Id, user: Id, provider: string)
    requires IsOldestActive(rows, id, user, provider)
    ensures IsOwned(rows, id, user, provider)
  {
  }

  lemma SoundHasOneDefault(rows: Rows)
    requires IsSound(rows)
    ensures OneDefault(rows)
  {
  }

  lemma StatusKeepsSound(rows: Rows, id: Id, status: Status)
    requires id in rows && IsSound(rows)
    ensures IsSound(SetStatus(rows, id, status))
  {
    hide IsSound;
    ChangeKeepsSound(rows, id, rows[id].(status := status));
  }

  // Every request keeps at most one default per user and provider, and labels apart.
  lemma StepKeepsSound(s: State, c: Call, t: State)
    requires IsSound(s.rows) && Step(s, c, t)
    ensures IsSound(t.rows)
  {
    hide IsSound, RowsCreated, RowsUpdated, Deleted, SetStatus;
    match c {
      case Create(_, _, _, _, _, _, _, _, _, _, _) =>
        if CreateAnswer(s.rows, c) == Done {
          CreateKeepsSound(s.rows, c);
        }
      case Update(_, _, _, _, _, _, _, _) =>
        if UpdateAnswer(s.rows, c) == Done {
          UpdateKeepsSound(s.rows, c);
        }
      case Delete(_, _, _, _) =>
        DeleteKeepsSound(s, c, t);
      case Verify(_, _, _) =>
        if c.id in s.rows && c.verdict.Some? {
          StatusKeepsSound(s.rows, c.id, if c.verdict.value then Active else Invalid);
        }
      case MarkRejected(id) =>
        if id in s.rows {
          StatusKeepsSound(s.rows, id, Invalid);
        }
    }
  }

  // ---------------------------------------------------------------- no secret without a row

  // The one way to strand a secret: a key that went to the remote store, a row that was refused,
  // and a cleanup that failed.
  predicate Strands(s: State, c: Call) {
    && c.Create? && c.backend == Remote && !c.deleteWorks
    && (CreateAnswer(s.rows, c) == Duplicate || CreateAnswer(s.rows, c) == CommitFailed)
  }

  lemma MakeDefaultKeepsBackends(rows: Rows, id: Id)
    requires id in rows
    ensures forall other :: other in rows ==> MakeDefault(rows, id)[other].backend == rows[other].backend
  {
  }

  lemma CreateStrandsIff(s: State, c: Call)
    requires c.Create? && c.id !in s.rows && NoOrphans(s)
    ensures NoOrphans(Created(s, c)) <==> !Strands(s, c)
  {
    hide LabelTaken, HasKey;
    var added := s.rows[c.id := Credential(c.user, c.provider, c.name, Active, false, c.backend, c.now)];
    MakeDefaultKeepsBackends(added, c.id);
    hide MakeDefault;
    var t := Created(s, c);
    assert c.id !in s.secrets;
    if Strands(s, c) {
      assert c.id in t.secrets && c.id !in t.rows;
    }
  }

  lemma UpdateKeepsBackends(s: State, c: Call)
    requires c.Update? && NoOrphans(s)
    ensures NoOrphans(Updated(s, c))
  {
    hide LabelTaken;
    var answer := UpdateAnswer(s.rows, c);
    if answer == Done {
      MakeDefaultKeepsBackends(s.rows[c.id := Changed(s.rows[c.id], c.replacement, c.newName)], c.id);
    }
    hide MakeDefault;
  }

  lemma DeleteKeepsNoOrphans(s: State, c: Call, t: State)
    requires c.Delete? && NoOrphans(s) && Deleted(s, c, t)
    ensures NoOrphans(t)
  {
    hide IsOldestActive, HasActive;
  }

  // Every request leaves no secret without its row, exactly unless it strands one.
  lemma StepKeepsNoOrphans(s: State, c: Call, t: State)
    requires NoOrphans(s) && Step(s, c, t)
    ensures NoOrphans(t) <==> !Strands(s, c)
  {
    hide Created, Updated, Deleted, NoOrphans, CreateAnswer;
    match c {
      case Create(_, _, _, _, _, _, _, _, _, _, _) => CreateStrandsIff(s, c);
      case Update(_, _, _, _, _, _, _, _) => UpdateKeepsBackends(s, c);
      case Delete(_, _, _, _) => DeleteKeepsNoOrphans(s, c, t);
      case Verify(_, _, _) => StatusKeepsNoOrphans(s, t);
      case MarkRejected(_) => StatusKeepsNoOrphans(s, t);
    }
  }

  lemma StatusKeepsNoOrphans(s: State, t: State)
    requires NoOrphans(s) && t.secrets == s.secrets && s.rows.Keys == t.rows.Keys
    requires forall id :: id in s.rows ==> t.rows[id].backend == s.rows[id].backend
    ensures NoOrphans(t)
  {
  }

  // ---------------------------------------------------------------- whole runs

  ghost predicate IsRun(states: seq<State>, calls: seq<Call>) {
    && |states| == |calls| + 1 && states[0] == State(map[], {})
    && forall i :: 0 <= i < |calls| ==> Step(states[i], calls[i], states[i + 1])
  }

  // From an empty vault on, whatever is asked and whatever fails: one default at most per user
  // and provider, and no label twice.
  lemma {:induction false} RunKeepsSound(states: seq<State>, calls: seq<Call>, i: nat)
    requires IsRun(states, calls) && i < |states|
    ensures IsSound(states[i].rows)
  {
    hide Step;
    if i > 0 {
      hide IsSound;
      RunKeepsSound(states, calls, i - 1);
      StepKeepsSound(states[i - 1], calls[i - 1], states[i]);
    }
  }

  // And no secret without its row, as long as no cleanup fails.
  lemma {:induction false} RunKeepsNoOrphans(states: seq<State>, calls: seq<Call>, i: nat)
    requires IsRun(states, calls) && i < |states|
    requires forall k :: 0 <= k < i && calls[k].Create? ==> calls[k].deleteWorks
    ensures NoOrphans(states[i])
  {
    hide Step;
    if i > 0 {
      hide NoOrphans, CreateAnswer;
      RunKeepsNoOrphans(states, calls, i - 1);
      StepKeepsNoOrphans(states[i - 1], calls[i - 1], states[i]);
    }
  }

  // ---------------------------------------------------------------- the default

  ghost predicate HasDefault(rows: Rows, user: Id, provider: string) {
    exists id :: id in rows && IsOwned(rows, id, user, provider) && rows[id].isDefault
  }

  // The first key for a provider is its default.
  lemma FirstKeyIsDefault(s: State, c: Call)
    requires c.Create? && c.id !in s.rows && CreateAnswer(s.rows, c) == Done && !HasKey(s.rows, c.user, c.provider)
    ensures Created(s, c).rows[c.id].isDefault && IsOwned(Created(s, c).rows, c.id, c.user, c.provider)
  {
    hide LabelTaken, HasKey, ClearDefaults;
  }

  // After the default is deleted its owner has one again exactly if an active key is left; a
  // provider with only rejected keys is left without.
  lemma DefaultAfterDelete(s: State, c: Call, t: State)
    requires c.Delete? && Deleted(s, c, t) && IsSound(s.rows)
    requires DeleteAnswer(s.rows, c) == Done && s.rows[c.id].isDefault
    ensures HasDefault(t.rows, c.user, s.rows[c.id].provider) <==> HasActive(s.rows - {c.id}, c.user, s.rows[c.id].provider)
  {
    var rest, provider := s.rows - {c.id}, s.rows[c.id].provider;
    hide UniqueLabels, HasActive;
    if HasActive(rest, c.user, provider) {
      var id :| id in rest && IsOldestActive(rest, id, c.user, provider) && t.rows == rest[id := rest[id].(isDefault := true)];
      assert IsOwned(t.rows, id, c.user, provider) && t.rows[id].isDefault;
    } else {
      forall other | other in t.rows && IsOwned(t.rows, other, c.user, provider) ensures !t.rows[other].isDefault {
        NoDefaultLeft(s.rows, c.id, other);
      }
    }
  }

  // ---------------------------------------------------------------- the key of a turn

  lemma FirstIsCandidate(rows: Rows, user: Id, provider: string, list: seq<Id>)
    requires AreCandidates(rows, user, provider, list) && list != []
    ensures list[0] in rows && IsActive(rows, list[0], user, provider)
    ensures forall id :: id in rows && IsActive(rows, id, user, provider) ==> id == list[0] || Precedes(rows[list[0]], rows[id])
  {
    hide IsActive, Precedes;
    assert list[0] in list;
    forall id | id in rows && IsActive(rows, id, user, provider) ensures id == list[0] || Precedes(rows[list[0]], rows[id]) {
      assert id in list;
      var j :| 0 <= j < |list| && list[j] == id;
      if j > 0 {
        assert Precedes(rows[list[0]], rows[list[j]]);
      }
    }
  }

  // Without a pinned key, the active default is used.
  lemma DefaultIsChosen(rows: Rows, user: Id, provider: string, list: seq<Id>, id: Id, pinned: Option<Id>)
    requires OneDefault(rows) && AreCandidates(rows, user, provider, list)
    requires IsActive(rows, id, user, provider) && rows[id].isDefault
    requires pinned.Some? ==> pinned.value !in list
    ensures Chosen(list, pinned) == Some(id)
  {
    assert id in list;
    FirstIsCandidate(rows, user, provider, list);
    var first := list[0];
    assert SameOwner(rows[first], rows[id]);
    assert rows[first].isDefault;
  }

  // Without a pinned key and an active default, the oldest active key is used.
  lemma OldestIsChosen(rows: Rows, user: Id, provider: string, list: seq<Id>, pinned: Option<Id>)
    requires AreCandidates(rows, user, provider, list) && HasActive(rows, user, provider)
    requires forall id :: id in rows && IsActive(rows, id, user, provider) ==> !rows[id].isDefault
    requires pinned.Some? ==> pinned.value !in list
    ensures Chosen(list, pinned).Some? && IsOldestActive(rows, Chosen(list, pinned).value, user, provider)
  {
    var id :| id in rows && IsActive(rows, id, user, provider);
    assert id in list;
    FirstIsCandidate(rows, user, provider, list);
  }

  // A pinned key is used as long as it is active.
  lemma PinnedIsChosen(rows: Rows, user: Id, provider: string, list: seq<Id>, pinned: Id)
    requires AreCandidates(rows, user, provider, list) && IsActive(rows, pinned, user, provider)
    ensures Chosen(list, Some(pinned)) == Some(pinned)
  {
    assert pinned in list;
  }

  // ---------------------------------------------------------------- rejected keys

  // A verdict makes the key a candidate of its owner's turns or takes it away, and touches no other key.
  lemma VerdictDecides(s: State, c: Call, t: State, provider: string, before: seq<Id>, after: seq<Id>)
    requires c.Verify? && Step(s, c, t) && c.verdict.Some? && IsOwned(s.rows, c.id, c.user, provider)
    requires AreCandidates(s.rows, c.user, provider, before) && AreCandidates(t.rows, c.user, provider, after)
    ensures c.id in after <==> c.verdict.value
    ensures forall id :: id != c.id ==> (id in after <==> id in before)
  {
  }

  predicate IsInactive(rows: Rows, id: Id) {
    id in rows ==> rows[id].status != Active
  }

  // The calls that can bring a key back: a replacement, an accepted check, or a new key of that id.
  predicate Reinstates(c: Call, id: Id) {
    match c
    case Create(_, _, _, _, _, other, _, _, _, _, _) => other == id
    case Update(_, other, replacement, _, _, _, _, _) => other == id && replacement
    case Delete(_, _, _, _) => false
    case Verify(_, other, verdict) => other == id && verdict == Some(true)
    case MarkRejected(_) => false
  }

  lemma CreateKeepsInactive(s: State, c: Call, id: Id)
    requires c.Create? && c.id != id && IsInactive(s.rows, id)
    ensures IsInactive(Created(s, c).rows, id)
  {
    hide LabelTaken, HasKey, ClearDefaults, MakeDefault;
  }

  lemma UpdateKeepsInactive(s: State, c: Call, id: Id)
    requires c.Update? && !Reinstates(c, id) && IsInactive(s.rows, id)
    ensures IsInactive(Updated(s, c).rows, id)
  {
    hide LabelTaken, ClearDefaults, MakeDefault;
  }

  lemma DeleteKeepsInactive(s: State, c: Call, t: State, id: Id)
    requires c.Delete? && Deleted(s, c, t) && IsInactive(s.rows, id)
    ensures IsInactive(t.rows, id)
  {
    hide IsOldestActive, HasActive;
  }

  lemma StepKeepsInactive(s: State, c: Call, t: State, id: Id)
    requires Step(s, c, t) && !Reinstates(c, id) && IsInactive(s.rows, id)
    ensures IsInactive(t.rows, id)
  {
    hide Created, Updated, Deleted;
    match c {
      case Create(_, _, _, _, _, _, _, _, _, _, _) => CreateKeepsInactive(s, c, id);
      case Update(_, _, _, _, _, _, _, _) => UpdateKeepsInactive(s, c, id);
      case Delete(_, _, _, _) => DeleteKeepsInactive(s, c, t, id);
      case Verify(_, _, _) =>
      case MarkRejected(_) =>
    }
  }

  // The provider refused the key, while a turn used it or when it was checked.
  predicate Rejects(s: State, c: Call, id: Id) {
    || c == MarkRejected(id)
    || (c.Verify? && c.id == id && c.verdict == Some(false) && id in s.rows && s.rows[id].user == c.user)
  }

  lemma RejectionTakesHold(s: State, c: Call, t: State, id: Id)
    requires Step(s, c, t) && Rejects(s, c, id)
    ensures IsInactive(t.rows, id)
  {
    hide Created, Updated, Deleted;
  }

  lemma {:induction false} StaysInactive(states: seq<State>, calls: seq<Call>, id: Id, i: nat, j: nat)
    requires IsRun(states, calls) && i <= j < |states| && IsInactive(states[i].rows, id)
    requires forall k :: i <= k < j ==> !Reinstates(calls[k], id)
    ensures IsInactive(states[j].rows, id)
  {
    hide Step, Reinstates, IsInactive;
    if i < j {
      StaysInactive(states, calls, id, i, j - 1);
      StepKeepsInactive(states[j - 1], calls[j - 1], states[j], id);
    }
  }

  // Over every run, a rejected key is used by no turn, default or pinned, until it is replaced or
  // its provider accepts it again.
  lemma RejectedStaysOut(states: seq<State>, calls: seq<Call>, id: Id, i: nat, j: nat, user: Id, provider: string, list: seq<Id>,
      pinned: Option<Id>)
    requires IsRun(states, calls) && i < j < |states| && Rejects(states[i], calls[i], id)
    requires forall k :: i < k < j ==> !Reinstates(calls[k], id)
    requires AreCandidates(states[j].rows, user, provider, list)
    ensures Chosen(list, pinned) != Some(id)
  {
    hide Reinstates, Rejects;
    assert Step(states[i], calls[i], states[i + 1]);
    hide Step;
    RejectionTakesHold(states[i], calls[i], states[i + 1], id);
    StaysInactive(states, calls, id, i + 1, j);
    assert id !in list;
  }

  // ---------------------------------------------------------------- the key of every turn

  // The key that a turn with these candidates uses: the pinned one, else the owner's active default, else
  // an oldest active one; and none exactly when no key is active.
  ghost predicate IsKeyOfTurn(rows: Rows, user: Id, provider: string, pinned: Option<Id>, key: Option<Id>) {
    if pinned.Some? && IsActive(rows, pinned.value, user, provider) then key == pinned
    else if !HasActive(rows, user, provider) then key.None?
    else
      && key.Some? && IsActive(rows, key.value, user, provider)
      && (forall id :: id in rows && IsActive(rows, id, user, provider) && rows[id].isDefault ==> key.value == id)
      && (rows[key.value].isDefault || IsOldestActive(rows, key.value, user, provider))
  }

  lemma CandidatesExist(rows: Rows, user: Id, provider: string, list: seq<Id>)
    requires AreCandidates(rows, user, provider, list)
    ensures list != [] <==> HasActive(rows, user, provider)
  {
    if list != [] {
      assert list[0] in list;
    }
    if HasActive(rows, user, provider) {
      var id :| id in rows && IsActive(rows, id, user, provider);
      assert id in list;
    }
  }

  lemma ChosenIsKey(rows: Rows, user: Id, provider: string, list: seq<Id>, pinned: Option<Id>)
    requires OneDefault(rows) && AreCandidates(rows, user, provider, list)
    ensures IsKeyOfTurn(rows, user, provider, pinned, Chosen(list, pinned))
  {
    hide OneDefault, AreCandidates, Precedes, IsOldestActive;
    CandidatesExist(rows, user, provider, list);
    PinnedIsCandidate(rows, user, provider, list, pinned);
    if pinned.Some? && IsActive(rows, pinned.value, user, provider) {
      PinnedIsChosen(rows, user, provider, list, pinned.value);
    } else if list != [] {
      if id :| id in rows && IsActive(rows, id, user, provider) && rows[id].isDefault {
        DefaultIsChosen(rows, user, provider, list, id, pinned);
        OnlyDefault(rows, user, provider, id);
      } else {
        OldestIsChosen(rows, user, provider, list, pinned);
        OldestIsActive(rows, user, provider, Chosen(list, pinned).value);
      }
    }
  }

  lemma PinnedIsCandidate(rows: Rows, user: Id, provider: string, list: seq<Id>, pinned: Option<Id>)
    requires AreCandidates(rows, user, provider, list)
    ensures pinned.Some? ==> (pinned.value in list <==> IsActive(rows, pinned.value, user, provider))
  {
  }

  lemma OnlyDefault(rows: Rows, user: Id, provider: string, id: Id)
    requires OneDefault(rows) && IsActive(rows, id, user, provider) && rows[id].isDefault
    ensures forall other :: other in rows && IsActive(rows, other, user, provider) && rows[other].isDefault ==> other == id
  {
  }

  lemma OldestIsActive(rows: Rows, user: Id, provider: string, id: Id)
    requires IsOldestActive(rows, id, user, provider)
    ensures IsActive(rows, id, user, provider)
  {
  }

  // Over every run from an empty vault, whatever failed on the way, each turn uses that key.
  lemma EveryTurnHasItsKey(states: seq<State>, calls: seq<Call>, i: nat, user: Id, provider: string, list: seq<Id>,
      pinned: Option<Id>)
    requires IsRun(states, calls) && i < |states| && AreCandidates(states[i].rows, user, provider, list)
    ensures IsKeyOfTurn(states[i].rows, user, provider, pinned, Chosen(list, pinned))
  {
    hide IsRun, IsKeyOfTurn, AreCandidates, OneDefault, UniqueLabels;
    RunKeepsSound(states, calls, i);
    ChosenIsKey(states[i].rows, user, provider, list, pinned);
  }

  // The call made the key its owner's default: its first one, or one asked to be, and it is active.
  predicate MakesDefault(s: State, c: Call, t: State, id: Id) {
    || (c.Create? && c.id == id && CreateAnswer(s.rows, c) == Done && !HasKey(s.rows, c.user, c.provider))
    || (c.Update? && c.id == id && UpdateAnswer(s.rows, c) == Done && c.makeDefault && id in t.rows && t.rows[id].status == Active)
  }

  lemma MadeDefaultIsActive(s: State, c: Call, t: State, id: Id, user: Id, provider: string)
    requires Step(s, c, t) && MakesDefault(s, c, t, id) && IsOwned(t.rows, id, user, provider)
    ensures IsActive(t.rows, id, user, provider) && t.rows[id].isDefault
  {
    hide LabelTaken, HasKey, ClearDefaults;
    if c.Create? {
      FirstKeyIsDefault(s, c);
    }
  }

  predicate IsDefaultKey(rows: Rows, id: Id, user: Id, provider: string) {
    IsActive(rows, id, user, provider) && rows[id].isDefault
  }

  // The call ends the key's time as default: the owner makes another key the default, the key is deleted, or
  // its provider refuses it.
  predicate TakesAway(s: State, c: Call, id: Id, user: Id, provider: string) {
    match c
    case Create(_, _, _, _, _, _, _, _, _, _, _) =>
      c.makeDefault && c.user == user && c.provider == provider && CreateAnswer(s.rows, c) == Done
    case Update(_, _, _, _, _, _, _, _) =>
      c.makeDefault && c.id != id && IsOwned(s.rows, c.id, user, provider) && UpdateAnswer(s.rows, c) == Done
    case Delete(_, _, _, _) => c.id == id && DeleteAnswer(s.rows, c) == Done
    case Verify(_, _, _) => Rejects(s, c, id)
    case MarkRejected(_) => Rejects(s, c, id)
  }

  lemma CreateKeepsDefaultIff(s: State, c: Call, id: Id, user: Id, provider: string)
    requires c.Create? && c.id !in s.rows && IsDefaultKey(s.rows, id, user, provider)
    ensures IsDefaultKey(Created(s, c).rows, id, user, provider) <==> !TakesAway(s, c, id, user, provider)
  {
    hide LabelTaken, ClearDefaults;
    assert c.user == user && c.provider == provider ==> HasKey(s.rows, c.user, c.provider);
  }

  lemma UpdateKeepsDefaultIff(s: State, c: Call, id: Id, user: Id, provider: string)
    requires c.Update? && IsDefaultKey(s.rows, id, user, provider)
    ensures IsDefaultKey(Updated(s, c).rows, id, user, provider) <==> !TakesAway(s, c, id, user, provider)
  {
    hide LabelTaken, ClearDefaults;
  }

  lemma DeleteKeepsDefaultIff(s: State, c: Call, t: State, id: Id, user: Id, provider: string)
    requires c.Delete? && Deleted(s, c, t) && IsDefaultKey(s.rows, id, user, provider)
    ensures IsDefaultKey(t.rows, id, user, provider) <==> !TakesAway(s, c, id, user, provider)
  {
    hide HasActive;
  }

  // A request leaves the default key its owner's active default exactly unless it is such a call.
  lemma StepKeepsDefaultIff(s: State, c: Call, t: State, id: Id, user: Id, provider: string)
    requires Step(s, c, t) && IsDefaultKey(s.rows, id, user, provider)
    ensures IsDefaultKey(t.rows, id, user, provider) <==> !TakesAway(s, c, id, user, provider)
  {
    hide Created, Updated, Deleted;
    match c {
      case Create(_, _, _, _, _, _, _, _, _, _, _) => CreateKeepsDefaultIff(s, c, id, user, provider);
      case Update(_, _, _, _, _, _, _, _) => UpdateKeepsDefaultIff(s, c, id, user, provider);
      case Delete(_, _, _, _) => DeleteKeepsDefaultIff(s, c, t, id, user, provider);
      case Verify(_, _, _) =>
      case MarkRejected(_) =>
    }
  }

  lemma {:induction false} DefaultStays(states: seq<State>, calls: seq<Call>, id: Id, i: nat, j: nat, user: Id, provider: string)
    requires IsRun(states, calls) && i <= j < |states| && IsDefaultKey(states[i].rows, id, user, provider)
    requires forall k :: i <= k < j ==> !TakesAway(states[k], calls[k], id, user, provider)
    ensures IsDefaultKey(states[j].rows, id, user, provider)
  {
    hide Step, TakesAway, IsDefaultKey;
    if i < j {
      DefaultStays(states, calls, id, i, j - 1, user, provider);
      StepKeepsDefaultIff(states[j - 1], calls[j - 1], states[j], id, user, provider);
    }
  }

  // Over every run, a key that was made the default is the key of every later turn of its owner that pins no
  // candidate, until such a call.
  lemma NewDefaultStaysChosen(states: seq<State>, calls: seq<Call>, id: Id, i: nat, j: nat, user: Id, provider: string, list: seq<Id>,
      pinned: Option<Id>)
    requires IsRun(states, calls) && i < j < |states| && MakesDefault(states[i], calls[i], states[i + 1], id)
    requires IsOwned(states[i + 1].rows, id, user, provider)
    requires forall k :: i < k < j ==> !TakesAway(states[k], calls[k], id, user, provider)
    requires AreCandidates(states[j].rows, user, provider, list) && (pinned.Some? ==> pinned.value !in list)
    ensures Chosen(list, pinned) == Some(id)
  {
    hide MakesDefault, AreCandidates, TakesAway, OneDefault, UniqueLabels;
    assert Step(states[i], calls[i], states[i + 1]);
    hide Step;
    MadeDefaultIsActive(states[i], calls[i], states[i + 1], id, user, provider);
    DefaultStays(states, calls, id, i + 1, j, user, provider);
    RunKeepsSound(states, calls, j);
    DefaultIsChosen(states[j].rows, user, provider, list, id, pinned);
  }
}
