/** The key vault of app/services/vault_service.py. */
module Vault {
  // The credential rows, the secrets that a remote store holds for them, and the default flag of each
  // (user, provider). Provider checks, the remote store and the commit may each fail; their answers
  // are inputs.

  import opened Text

  type Id = nat

  datatype Status = Active | Invalid | Revoked

  datatype Backend = Local | Remote

  datatype Credential = Credential(
    user: Id, provider: string, name: string, status: Status, isDefault: bool, backend: Backend, created: int)

  type Rows = map<Id, Credential>

  // The committed rows, and the credentials for which the remote store holds a secret.
  datatype State = State(rows: Rows, secrets: set<Id>)

  datatype Answer = Done | Refused | NotFound | Duplicate | StoreFailed | CommitFailed

  // ---------------------------------------------------------------- queries

  predicate SameOwner(a: Credential, b: Credential) {
    a.user == b.user && a.provider == b.provider
  }

  predicate IsOwned(rows: Rows, id: Id, user: Id, provider: string) {
    id in rows && rows[id].user == user && rows[id].provider == provider
  }

  predicate IsActive(rows: Rows, id: Id, user: Id, provider: string) {
    IsOwned(rows, id, user, provider) && rows[id].status == Active
  }

  // Another row of the same owner carries the label.
  predicate LabelTaken(rows: Rows, id: Id, user: Id, provider: string, name: string) {
    exists other :: other in rows && other != id && IsOwned(rows, other, user, provider) && rows[other].name == name
  }

  // The UPDATE of `_clear_defaults`.
  function ClearDefaults(rows: Rows, user: Id, provider: string, keep: Option<Id>): (r: Rows)
    ensures r.Keys == rows.Keys
    ensures forall id :: id in rows ==>
      r[id] == if IsOwned(rows, id, user, provider) && keep != Some(id) then rows[id].(isDefault := false) else rows[id]
  {
    map id | id in rows ::
      if IsOwned(rows, id, user, provider) && keep != Some(id) then rows[id].(isDefault := false) else rows[id]
  }

  // The row as the only default of its owner.
  function MakeDefault(rows: Rows, id: Id): (r: Rows)
    requires id in rows
    ensures r.Keys == rows.Keys && r[id] == rows[id].(isDefault := true)
    ensures forall other :: other in rows && other != id ==>
      r[other] == if SameOwner(rows[other], rows[id]) then rows[other].(isDefault := false) else rows[other]
  {
    ClearDefaults(rows, rows[id].user, rows[id].provider, Some(id))[id := rows[id].(isDefault := true)]
  }

  predicate IsOldestActive(rows: Rows, id: Id, user: Id, provider: string) {
    && IsActive(rows, id, user, provider)
    && forall other :: other in rows && IsActive(rows, other, user, provider) ==> rows[id].created <= rows[other].created
  }

  // ---------------------------------------------------------------- invariants

  ghost predicate OneDefault(rows: Rows) {
    forall a, b :: a in rows && b in rows && SameOwner(rows[a], rows[b]) && rows[a].isDefault && rows[b].isDefault ==> a == b
  }

  ghost predicate UniqueLabels(rows: Rows) {
    forall a, b :: a in rows && b in rows && SameOwner(rows[a], rows[b]) && rows[a].name == rows[b].name ==> a == b
  }

  // What the two unique indexes of the table demand.
  ghost predicate IsSound(rows: Rows) {
    OneDefault(rows) && UniqueLabels(rows)
  }

  // Every secret in the remote store belongs to a row that points there.
  ghost predicate NoOrphans(s: State) {
    forall id :: id in s.secrets ==> id in s.rows && s.rows[id].backend == Remote
  }

  // ---------------------------------------------------------------- what each operation does

  // A request, with the answers of everything outside the vault. `accepted` says that the key has
  // its provider's shape and, if asked, that the provider took it.
  datatype Call =
    | Create(user: Id, provider: string, name: string, makeDefault: bool, backend: Backend, id: Id, now: int,
             accepted: bool, putWorks: bool, deleteWorks: bool, commitWorks: bool)
    | Update(user: Id, id: Id, replacement: bool, newName: Option<string>, makeDefault: bool,
             accepted: bool, putWorks: bool, commitWorks: bool)
    | Delete(user: Id, id: Id, deleteWorks: bool, commitWorks: bool)
    | Verify(user: Id, id: Id, verdict: Option<bool>)
    | MarkRejected(id: Id)

  function WithSecret(secrets: set<Id>, id: Id, backend: Backend): set<Id> {
    if backend == Remote then secrets + {id} else secrets
  }

  function WithoutSecret(secrets: set<Id>, id: Id, backend: Backend): set<Id> {
    if backend == Remote then secrets - {id} else secrets
  }

  // Best-effort cleanup of a secret whose row never made it.
  function Forgotten(secrets: set<Id>, id: Id, backend: Backend, deleteWorks: bool): set<Id> {
    if backend == Remote && deleteWorks then secrets - {id} else secrets
  }

  predicate HasKey(rows: Rows, user: Id, provider: string) {
    exists id :: id in rows && IsOwned(rows, id, user, provider)
  }

  predicate HasActive(rows: Rows, user: Id, provider: string) {
    exists id :: id in rows && IsActive(rows, id, user, provider)
  }

  function CreateAnswer(rows: Rows, c: Call): Answer
    requires c.Create?
  {
    if !c.accepted then Refused
    else if !c.putWorks then StoreFailed
    else if LabelTaken(rows, c.id, c.user, c.provider, c.name) then Duplicate
    else if !c.commitWorks then CommitFailed
    else Done
  }

  // The first key for a provider is the default whether or not that was asked.
  function RowsCreated(rows: Rows, c: Call): Rows
    requires c.Create?
  {
    var added := rows[c.id := Credential(c.user, c.provider, c.name, Active, false, c.backend, c.now)];
    if c.makeDefault || !HasKey(rows, c.user, c.provider) then MakeDefault(added, c.id) else added
  }

  function Created(s: State, c: Call): State
    requires c.Create?
  {
    match CreateAnswer(s.rows, c)
    case Done => State(RowsCreated(s.rows, c), WithSecret(s.secrets, c.id, c.backend))
    case Refused => s
    case StoreFailed => s
    case _ => s.(secrets := Forgotten(WithSecret(s.secrets, c.id, c.backend), c.id, c.backend, c.deleteWorks))
  }

  function Changed(row: Credential, replacement: bool, name: Option<string>): Credential {
    row.(status := if replacement then Active else row.status, name := if name.Some? then name.value else row.name)
  }

  function RowsUpdated(rows: Rows, c: Call): Rows
    requires c.Update? && c.id in rows
  {
    var changed := rows[c.id := Changed(rows[c.id], c.replacement, c.newName)];
    if c.makeDefault then MakeDefault(changed, c.id) else changed
  }

  function UpdateAnswer(rows: Rows, c: Call): (r: Answer)
    requires c.Update?
    ensures r == Done || PutsSecret(r) ==> c.id in rows && rows[c.id].user == c.user
  {
    if c.id !in rows || rows[c.id].user != c.user then NotFound
    else if c.replacement && !c.accepted then Refused
    else if c.replacement && !c.putWorks then StoreFailed
    else if c.newName.Some? && c.newName.value != rows[c.id].name &&
            LabelTaken(rows, c.id, c.user, rows[c.id].provider, c.newName.value) then Duplicate
    else if !c.commitWorks then CommitFailed
    else Done
  }

  // A replaced key is in the store by the time that the label or the commit fails.
  predicate PutsSecret(answer: Answer) {
    answer == Done || answer == Duplicate || answer == CommitFailed
  }

  function Updated(s: State, c: Call): State
    requires c.Update?
  {
    var answer := UpdateAnswer(s.rows, c);
    State(
      if answer == Done then RowsUpdated(s.rows, c) else s.rows,
      if c.replacement && PutsSecret(answer) then WithSecret(s.secrets, c.id, s.rows[c.id].backend) else s.secrets)
  }

  function DeleteAnswer(rows: Rows, c: Call): (r: Answer)
    requires c.Delete?
    ensures r == Done || r == CommitFailed ==> c.id in rows && rows[c.id].user == c.user
  {
    if c.id !in rows || rows[c.id].user != c.user then NotFound
    else if rows[c.id].backend == Remote && !c.deleteWorks then StoreFailed
    else if !c.commitWorks then CommitFailed
    else Done
  }

  // What may follow when the default is gone: the oldest active key takes over, if there is one.
  ghost predicate Promoted(before: Rows, user: Id, provider: string, after: Rows) {
    if HasActive(before, user, provider) then
      exists id :: id in before && IsOldestActive(before, id, user, provider) && after == before[id := before[id].(isDefault := true)]
    else after == before
  }

  ghost predicate Deleted(s: State, c: Call, t: State)
    requires c.Delete?
  {
    match DeleteAnswer(s.rows, c)
    case Done =>
      && t.secrets == WithoutSecret(s.secrets, c.id, s.rows[c.id].backend)
      && (if s.rows[c.id].isDefault then Promoted(s.rows - {c.id}, c.user, s.rows[c.id].provider, t.rows) else t.rows == s.rows - {c.id})
    case CommitFailed => t == s.(secrets := WithoutSecret(s.secrets, c.id, s.rows[c.id].backend))
    case _ => t == s
  }

  function SetStatus(rows: Rows, id: Id, status: Status): Rows
    requires id in rows
  {
    rows[id := rows[id].(status := status)]
  }

  function Verified(s: State, c: Call): State
    requires c.Verify?
  {
    if c.id in s.rows && s.rows[c.id].user == c.user && c.verdict.Some?
    then s.(rows := SetStatus(s.rows, c.id, if c.verdict.value then Active else Invalid)) else s
  }

  // No row comes or goes, and nothing but the status of one of them may differ.
  predicate OnlyStatusChanges(before: Rows, after: Rows, id: Id) {
    && after.Keys == before.Keys
    && (forall other :: other in before && other != id ==> after[other] == before[other])
    && (id in before ==> after[id] == before[id].(status := after[id].status))
  }

  // One request against the vault. Ids of new rows are fresh; of two equally old keys either may
  // become the default.
  ghost predicate Step(s: State, c: Call, t: State) {
    match c
    case Create(_, _, _, _, _, id, _, _, _, _, _) => id !in s.rows && t == Created(s, c)
    case Update(_, _, _, _, _, _, _, _) => t == Updated(s, c)
    case Delete(_, _, _, _) => Deleted(s, c, t)
    case Verify(_, _, _) => t == Verified(s, c)
    case MarkRejected(id) => t == if id in s.rows then s.(rows := SetStatus(s.rows, id, Invalid)) else s
  }

  // ---------------------------------------------------------------- the service

  class VaultService {
    var rows: Rows
    // The credentials that the remote store holds a secret for; a local secret lives in its row.
    var secrets: set<Id>

    constructor ()
      ensures Now() == State(map[], {})
    {
      rows, secrets := map[], {};
    }

    ghost function Now(): State
      reads this
    {
      State(rows, secrets)
    }

    // The owner's other defaults are cleared first, the row's own one kept or not, and then its flag is set.
    method SetDefault(id: Id, keep: Option<Id>)
      requires id in rows && (keep.None? || keep == Some(id))
      modifies this`rows
      ensures rows == MakeDefault(old(rows), id)
    {
      rows := ClearDefaults(rows, rows[id].user, rows[id].provider, keep);
      rows := rows[id := rows[id].(isDefault := true)];
    }

    method CreateKey(c: Call) returns (answer: Answer)
      requires c.Create? && c.id !in rows
      modifies this
      ensures answer == CreateAnswer(old(rows), c) && Step(old(Now()), c, Now())
    {
      hide IsOwned, LabelTaken, ClearDefaults, MakeDefault;
      if !c.accepted {
        return Refused;
      }
      var committed := rows;
      var isFirst := !HasKey(rows, c.user, c.provider);
      if !c.putWorks {
        return StoreFailed;
      }
      secrets := WithSecret(secrets, c.id, c.backend);
      if LabelTaken(rows, c.id, c.user, c.provider, c.name) {
        secrets := Forgotten(secrets, c.id, c.backend, c.deleteWorks);
        return Duplicate;
      }
      rows := rows[c.id := Credential(c.user, c.provider, c.name, Active, false, c.backend, c.now)];
      if c.makeDefault || isFirst {
        SetDefault(c.id, None);
      }
      if !c.commitWorks {
        rows := committed;
        secrets := Forgotten(secrets, c.id, c.backend, c.deleteWorks);
        return CommitFailed;
      }
      return Done;
    }

    // A new key, a new label, the default flag: each only when given. Every failure rolls the rows back.
    method UpdateKey(c: Call) returns (answer: Answer)
      requires c.Update?
      modifies this
      ensures answer == UpdateAnswer(old(rows), c) && Now() == Updated(old(Now()), c)
    {
      hide IsOwned, LabelTaken, ClearDefaults, MakeDefault, WithSecret, SameOwner;
      var committed := rows;
      if c.id !in rows || rows[c.id].user != c.user {
        return NotFound;
      }
      if c.replacement {
        if !c.accepted {
          return Refused;
        }
        if !c.putWorks {
          return StoreFailed;
        }
        secrets := WithSecret(secrets, c.id, rows[c.id].backend);
        rows := rows[c.id := rows[c.id].(status := Active)];
      }
      ghost var row := rows[c.id];
      assert row == Changed(committed[c.id], c.replacement, None) && rows == committed[c.id := row];
      TakenBefore(committed, rows, c.id);
      if c.newName.Some? && c.newName.value != rows[c.id].name {
        if LabelTaken(rows, c.id, c.user, rows[c.id].provider, c.newName.value) {
          rows := committed;
          return Duplicate;
        }
        rows := rows[c.id := rows[c.id].(name := c.newName.value)];
        UpdatedTwice(committed, c.id, row, rows[c.id]);
      }
      assert rows[c.id] == Changed(committed[c.id], c.replacement, c.newName);
      assert rows == committed[c.id := rows[c.id]];
      if c.makeDefault {
        SetDefault(c.id, Some(c.id));
      }
      if !c.commitWorks {
        rows := committed;
        return CommitFailed;
      }
      return Done;
    }

    // The secret goes first; if that fails the row stays.
    method DeleteKey(c: Call) returns (answer: Answer)
      requires c.Delete?
      modifies this
      ensures answer == DeleteAnswer(old(rows), c) && Step(old(Now()), c, Now())
    {
      hide IsOldestActive, IsActive;
      var committed := rows;
      if c.id !in rows || rows[c.id].user != c.user {
        return NotFound;
      }
      var wasDefault, provider := rows[c.id].isDefault, rows[c.id].provider;
      if rows[c.id].backend == Remote {
        if !c.deleteWorks {
          return StoreFailed;
        }
        secrets := secrets - {c.id};
      }
      rows := rows - {c.id};
      if wasDefault {
        var replacement := Oldest(rows, c.user, provider);
        if replacement.Some? {
          rows := rows[replacement.value := rows[replacement.value].(isDefault := true)];
        }
      }
      if !c.commitWorks {
        rows := committed;
        return CommitFailed;
      }
      return Done;
    }

    // The provider's verdict on a stored key: None when the key could not be read or checked.
    method VerifyStoredKey(c: Call) returns (found: bool)
      requires c.Verify?
      modifies this
      ensures found == (c.id in old(rows) && old(rows)[c.id].user == c.user) && Step(old(Now()), c, Now())
      ensures OnlyStatusChanges(old(rows), rows, c.id) && secrets == old(secrets)
      ensures !found || c.verdict.None? ==> rows == old(rows)
      ensures found && c.verdict.Some? ==> (rows[c.id].status == Active <==> c.verdict.value)
    {
      found := c.id in rows && rows[c.id].user == c.user;
      if found && c.verdict.Some? {
        rows := rows[c.id := rows[c.id].(status := if c.verdict.value then Active else Invalid)];
      }
    }

    // The provider refused the key in use.
    method RejectKey(id: Id)
      modifies this
      ensures Step(old(Now()), MarkRejected(id), Now())
      ensures OnlyStatusChanges(old(rows), rows, id) && secrets == old(secrets)
      ensures id in rows ==> rows[id].status != Active
    {
      if id in rows {
        rows := rows[id := rows[id].(status := Invalid)];
      }
    }
  }

  lemma UpdatedTwice(rows: Rows, id: Id, first: Credential, second: Credential)
    ensures rows[id := first][id := second] == rows[id := second]
  {
  }

  // Changing a row does not change which labels the others take.
  lemma TakenBefore(before: Rows, after: Rows, id: Id)
    requires after.Keys == before.Keys && forall other :: other in before && other != id ==> after[other] == before[other]
    ensures forall user, provider, name ::
      LabelTaken(after, id, user, provider, name) == LabelTaken(before, id, user, provider, name)
  {
  }

  // The oldest active key of an owner; of equally old ones, any.
  method Oldest(rows: Rows, user: Id, provider: string) returns (best: Option<Id>)
    ensures best.Some? ==> best.value in rows && IsOldestActive(rows, best.value, user, provider)
    ensures best.Some? == HasActive(rows, user, provider)
  {
    best := None;
    var rest := rows.Keys;
    while rest != {}
      invariant rest <= rows.Keys
      invariant best.Some? ==> IsActive(rows, best.value, user, provider)
      invariant forall id :: id in rows && id !in rest && IsActive(rows, id, user, provider) ==>
        best.Some? && rows[best.value].created <= rows[id].created
    {
      var id :| id in rest;
      rest := rest - {id};
      if IsActive(rows, id, user, provider) && (best.None? || rows[id].created < rows[best.value].created) {
        best := Some(id);
      }
    }
  }

  // ---------------------------------------------------------------- choosing a key for a turn

  // `_choose`: the pinned key if it is a candidate, else the first candidate.
  method Choose(candidates: seq<Id>, pinned: Option<Id>) returns (chosen: Option<Id>)
    ensures chosen == Chosen(candidates, pinned)
  {
    if candidates == [] {
      return None;
    }
    if pinned.Some? {
      for k := 0 to |candidates|
        invariant pinned.value !in candidates[..k]
      {
        if candidates[k] == pinned.value {
          return pinned;
        }
      }
      assert candidates[..|candidates|] == candidates;
    }
    return Some(candidates[0]);
  }

  function Chosen(candidates: seq<Id>, pinned: Option<Id>): Option<Id> {
    if candidates == [] then None
    else if pinned.Some? && pinned.value in candidates then pinned
    else Some(candidates[0])
  }

  // The default first, then the oldest.
  predicate Precedes(a: Credential, b: Credential) {
    (a.isDefault && !b.isDefault) || (a.isDefault == b.isDefault && a.created <= b.created)
  }

  // The active keys of an owner in that order.
  ghost predicate AreCandidates(rows: Rows, user: Id, provider: string, list: seq<Id>) {
    && (forall id :: id in list <==> id in rows && IsActive(rows, id, user, provider))
    && (forall i, j :: 0 <= i < j < |list| && list[i] in rows && list[j] in rows ==> Precedes(rows[list[i]], rows[list[j]]))
  }
}
