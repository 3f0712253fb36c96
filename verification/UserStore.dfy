/**
 * The user table and its two indexes: by case-folded username, and by the OIDC subject that is
 * the only key an identity is ever matched on.
 *
 * Case folding and trimming are parameters; nothing here depends on what they do to a string.
 */
module UserStore {
  import opened Wrappers

  datatype User = User(id: string, username: string, admin: bool, active: bool, scimDeleted: bool,
                       ssoSub: string, ssoUsername: string, ssoEmail: string)

  type Users = map<string, User>
  type Index = map<string, string>

  /** The table and its indexes in memory, and the file a restart would read. */
  datatype Dir = Dir(users: Users, byName: Index, bySub: Index, file: Users)

  datatype Names = Names(lower: string -> string, trim: string -> string)

  datatype StoreError = NotFound | EmptyUsername | UsernameTaken | SubjectTaken | NotSaved

  /** A directory deletion in force. A local reactivation overrides it without clearing the marker. */
  predicate Tombstoned(u: User) {
    u.scimDeleted && !u.active
  }

  // ---------------------------------------------------------------- the invariant

  predicate Keyed(users: Users) {
    forall id :: id in users ==> users[id].id == id
  }

  /** The name index is exactly the inverse of the table. */
  predicate NamesIndexed(n: Names, d: Dir) {
    && (forall name :: name in d.byName ==>
          d.byName[name] in d.users && n.lower(d.users[d.byName[name]].username) == name)
    && (forall id :: id in d.users ==>
          n.lower(d.users[id].username) in d.byName && d.byName[n.lower(d.users[id].username)] == id)
  }

  /** The subject index is exactly the inverse of the table, on the accounts that have a subject. */
  predicate SubsIndexed(d: Dir) {
    && (forall sub :: sub in d.bySub ==>
          sub != "" && d.bySub[sub] in d.users && d.users[d.bySub[sub]].ssoSub == sub)
    && (forall id :: id in d.users && d.users[id].ssoSub != "" ==>
          d.users[id].ssoSub in d.bySub && d.bySub[d.users[id].ssoSub] == id)
  }

  predicate Indexed(n: Names, d: Dir) {
    Keyed(d.users) && NamesIndexed(n, d) && SubsIndexed(d)
  }

  /** So no two accounts answer to one name or to one subject. */
  lemma IndexedIsUnambiguous(n: Names, d: Dir, a: string, b: string)
    requires Indexed(n, d) && a in d.users && b in d.users && a != b
    ensures n.lower(d.users[a].username) != n.lower(d.users[b].username)
    ensures d.users[a].ssoSub == d.users[b].ssoSub ==> d.users[a].ssoSub == ""
  {
  }

  // ---------------------------------------------------------------- what the operations do

  function Created(n: Names, d: Dir, username: string, admin: bool, sub: string, ssoUsername: string,
                   email: string, active: bool, id: string, saves: bool): (Dir, Result<User, StoreError>)
  {
    var name := n.trim(username);
    var lower := n.lower(name);
    if lower == "" then (d, Err(EmptyUsername))
    else if lower in d.byName then (d, Err(UsernameTaken))
    else if sub in d.bySub then
      (d, if d.bySub[sub] in d.users then Ok(d.users[d.bySub[sub]]) else Err(NotFound))
    else if !saves then (d, Err(NotSaved))
    else
      var u := User(id, name, admin, active, false, sub, ssoUsername, email);
      (Dir(d.users[id := u], d.byName[lower := id], d.bySub[sub := id], d.users[id := u]), Ok(u))
  }

  function Linked(d: Dir, id: string, sub: string, username: string, email: string,
                  saves: bool): (Dir, Option<StoreError>)
  {
    if id !in d.users then (d, Some(NotFound))
    else if sub in d.bySub && d.bySub[sub] != id then (d, Some(SubjectTaken))
    else
      var u := d.users[id];
      var bySub := if u.ssoSub != "" then d.bySub - {u.ssoSub} else d.bySub;
      var users := d.users[id := u.(ssoSub := sub, ssoUsername := username, ssoEmail := email)];
      (Dir(users, d.byName, bySub[sub := id], if saves then users else d.file),
       if saves then None else Some(NotSaved))
  }

  /** Role, activation and deactivation keep the change in memory even when it cannot be saved. */
  function Changed(d: Dir, id: string, admin: Option<bool>, active: Option<bool>,
                   saves: bool): (Dir, Option<StoreError>)
  {
    if id !in d.users then (d, Some(NotFound))
    else
      var u := d.users[id];
      var users := d.users[id := u.(admin := if admin.Some? then admin.value else u.admin,
                                    active := if active.Some? then active.value else u.active)];
      (d.(users := users, file := if saves then users else d.file),
       if saves then None else Some(NotSaved))
  }

  function Updated(d: Dir, id: string, admin: bool, active: bool, username: string, email: string,
                   deleted: bool, saves: bool): (Dir, Option<StoreError>)
  {
    if id !in d.users then (d, Some(NotFound))
    else if !saves then (d, Some(NotSaved))
    else
      var users := d.users[id := d.users[id].(admin := admin, active := active, ssoUsername := username,
                                              ssoEmail := email, scimDeleted := deleted)];
      (d.(users := users, file := users), None)
  }

  // ---------------------------------------------------------------- what they mean for the table

  /** Some account answers to the folded name, and some account has the subject. */
  predicate NameHeld(n: Names, d: Dir, folded: string) {
    exists id :: id in d.users && n.lower(d.users[id].username) == folded
  }

  predicate SubjectHeld(d: Dir, sub: string) {
    exists id :: id in d.users && d.users[id].ssoSub == sub
  }

  lemma IndexesMeanHeld(n: Names, d: Dir, folded: string, sub: string)
    requires Indexed(n, d) && sub != ""
    ensures folded in d.byName <==> NameHeld(n, d, folded)
    ensures sub in d.bySub <==> SubjectHeld(d, sub)
  {
    if folded in d.byName {
      assert d.byName[folded] in d.users;
    }
    if sub in d.bySub {
      assert d.bySub[sub] in d.users;
    }
  }

  /**
   * A creation is refused for a blank name, for a name some account holds, or because it cannot be
   * saved; a subject some account has is answered with that account; anything else becomes a new
   * account with the role, the activation and the identity asked for, in the table and in the file.
   */
  lemma CreationIsExact(n: Names, d: Dir, username: string, admin: bool, sub: string, ssoUsername: string,
                        email: string, active: bool, id: string, saves: bool)
    requires Indexed(n, d) && sub != ""
    ensures
      var (e, r) := Created(n, d, username, admin, sub, ssoUsername, email, active, id, saves);
      var folded := n.lower(n.trim(username));
      if folded == "" then r == Err(EmptyUsername) && e == d
      else if NameHeld(n, d, folded) then r == Err(UsernameTaken) && e == d
      else if SubjectHeld(d, sub) then
        r.Ok? && r.value.ssoSub == sub && r.value.id in d.users && d.users[r.value.id] == r.value && e == d
      else if !saves then r == Err(NotSaved) && e == d
      else
        && r == Ok(User(id, n.trim(username), admin, active, false, sub, ssoUsername, email))
        && e.users == e.file == d.users[id := r.value]
  {
    IndexesMeanHeld(n, d, n.lower(n.trim(username)), sub);
  }

  /** A link is refused for an unknown account or a subject another has; otherwise it is made, saved or not. */
  lemma LinkIsExact(n: Names, d: Dir, id: string, sub: string, username: string, email: string, saves: bool)
    requires Indexed(n, d) && sub != ""
    ensures
      var (e, r) := Linked(d, id, sub, username, email, saves);
      if id !in d.users then r == Some(NotFound) && e == d
      else if exists other :: other in d.users && other != id && d.users[other].ssoSub == sub then
        r == Some(SubjectTaken) && e == d
      else
        && e.users == d.users[id := d.users[id].(ssoSub := sub, ssoUsername := username, ssoEmail := email)]
        && r == (if saves then None else Some(NotSaved))
        && e.file == (if saves then e.users else d.file)
  {
    if id in d.users && sub in d.bySub && d.bySub[sub] != id {
      assert d.users[d.bySub[sub]].ssoSub == sub;
    }
  }

  // ---------------------------------------------------------------- the invariant is kept

  /** A fresh account keeps the indexes exact exactly when it has a subject. */
  lemma CreationKeepsIndex(n: Names, d: Dir, username: string, admin: bool, sub: string, ssoUsername: string,
                           email: string, active: bool, id: string, saves: bool)
    requires Indexed(n, d) && id !in d.users
    ensures
      var (e, r) := Created(n, d, username, admin, sub, ssoUsername, email, active, id, saves);
      && (Indexed(n, e) <==> e == d || sub != "")
      && (sub != "" && r.Ok? ==> r.value.ssoSub == sub && sub in e.bySub && e.bySub[sub] == r.value.id)
      && (r.Err? ==> e == d)
  {
    if sub != "" {
      CreationForSubject(n, d, username, admin, sub, ssoUsername, email, active, id, saves);
    } else {
      var (e, r) := Created(n, d, username, admin, sub, ssoUsername, email, active, id, saves);
      assert e != d ==> sub in e.bySub;
    }
  }

  lemma CreationForSubject(n: Names, d: Dir, username: string, admin: bool, sub: string, ssoUsername: string,
                           email: string, active: bool, id: string, saves: bool)
    requires Indexed(n, d) && id !in d.users && sub != ""
    ensures
      var (e, r) := Created(n, d, username, admin, sub, ssoUsername, email, active, id, saves);
      && Indexed(n, e)
      && (r.Ok? ==> r.value.ssoSub == sub && sub in e.bySub && e.bySub[sub] == r.value.id)
  {
    var name := n.trim(username);
    var u := User(id, name, admin, active, false, sub, ssoUsername, email);
    if n.lower(name) !in d.byName && sub !in d.bySub {
      NewUserIsNamed(n, d, u);
      NewUserIsFound(d, u, d.byName[n.lower(name) := id], d.users[id := u]);
    }
  }

  lemma NewUserIsNamed(n: Names, d: Dir, u: User)
    requires Keyed(d.users) && NamesIndexed(n, d)
    requires u.id !in d.users && n.lower(u.username) !in d.byName
    ensures
      var users := d.users[u.id := u];
      && Keyed(users)
      && NamesIndexed(n, Dir(users, d.byName[n.lower(u.username) := u.id], d.bySub[u.ssoSub := u.id], users))
  {
  }

  lemma NewUserIsFound(d: Dir, u: User, byName: Index, file: Users)
    requires SubsIndexed(d) && u.id !in d.users && u.ssoSub != "" && u.ssoSub !in d.bySub
    ensures SubsIndexed(Dir(d.users[u.id := u], byName, d.bySub[u.ssoSub := u.id], file))
  {
  }

  /** Linking keeps them exact exactly when the subject is not empty, whether or not it is saved. */
  lemma LinkKeepsIndex(n: Names, d: Dir, id: string, sub: string, username: string, email: string, saves: bool)
    requires Indexed(n, d)
    ensures
      var (e, r) := Linked(d, id, sub, username, email, saves);
      && (Indexed(n, e) <==> e == d || sub != "")
      && (r == Some(NotFound) || r == Some(SubjectTaken) ==> e == d)
  {
    if sub != "" {
      LinkToSubject(n, d, id, sub, username, email, saves);
    } else if id in d.users {
      assert sub in Linked(d, id, sub, username, email, saves).0.bySub;
    }
  }

  lemma LinkToSubject(n: Names, d: Dir, id: string, sub: string, username: string, email: string, saves: bool)
    requires Indexed(n, d) && sub != ""
    ensures Indexed(n, Linked(d, id, sub, username, email, saves).0)
  {
    LinkKeepsNames(n, d, id, sub, username, email, saves);
    LinkKeepsSubs(n, d, id, sub, username, email, saves);
  }

  lemma LinkKeepsNames(n: Names, d: Dir, id: string, sub: string, username: string, email: string, saves: bool)
    requires Indexed(n, d)
    ensures
      var e := Linked(d, id, sub, username, email, saves).0;
      Keyed(e.users) && NamesIndexed(n, e)
  {
  }

  lemma LinkKeepsSubs(n: Names, d: Dir, id: string, sub: string, username: string, email: string, saves: bool)
    requires Keyed(d.users) && SubsIndexed(d) && sub != ""
    ensures SubsIndexed(Linked(d, id, sub, username, email, saves).0)
  {
  }

  lemma ChangeKeepsIndex(n: Names, d: Dir, id: string, admin: Option<bool>, active: Option<bool>, saves: bool)
    requires Indexed(n, d)
    ensures Indexed(n, Changed(d, id, admin, active, saves).0)
  {
  }

  lemma UpdateKeepsIndex(n: Names, d: Dir, id: string, admin: bool, active: bool, username: string,
                         email: string, deleted: bool, saves: bool)
    requires Indexed(n, d)
    ensures
      var (e, r) := Updated(d, id, admin, active, username, email, deleted, saves);
      && Indexed(n, e) && e.bySub == d.bySub
      && (r.Some? ==> e == d) && (r.None? ==> e.file == e.users)
  {
  }

  // ---------------------------------------------------------------- the store

  /** What a file must be for the indexes built from it to be exact. */
  predicate WellFormed(n: Names, file: Users) {
    && Keyed(file)
    && (forall a, b :: a in file && b in file && a != b ==> n.lower(file[a].username) != n.lower(file[b].username))
    && (forall a, b :: a in file && b in file && a != b && file[a].ssoSub != "" ==> file[a].ssoSub != file[b].ssoSub)
  }

  /** What a restart makes of a well-formed file. */
  function Restarted(n: Names, file: Users): Dir
    requires WellFormed(n, file)
  {
    Dir(file,
        map id | id in file :: n.lower(file[id].username) := id,
        map id | id in file && file[id].ssoSub != "" :: file[id].ssoSub := id,
        file)
  }

  lemma RestartedIsIndexed(n: Names, file: Users)
    requires WellFormed(n, file)
    ensures Indexed(n, Restarted(n, file))
  {
  }

  /** A table has one pair of exact indexes. */
  lemma IndexesAreUnique(n: Names, d: Dir, e: Dir)
    requires Indexed(n, d) && Indexed(n, e) && d.users == e.users
    ensures d.byName == e.byName && d.bySub == e.bySub
  {
    NamesAreUnique(n, d, e);
    NamesAreUnique(n, e, d);
    SubsAreUnique(d, e);
    SubsAreUnique(e, d);
  }

  lemma NamesAreUnique(n: Names, d: Dir, e: Dir)
    requires NamesIndexed(n, d) && NamesIndexed(n, e) && d.users == e.users
    ensures forall name :: name in d.byName ==> name in e.byName && e.byName[name] == d.byName[name]
  {
  }

  lemma SubsAreUnique(d: Dir, e: Dir)
    requires SubsIndexed(d) && SubsIndexed(e) && d.users == e.users
    ensures forall sub :: sub in d.bySub ==> sub in e.bySub && e.bySub[sub] == d.bySub[sub]
  {
  }

  /**
   * A link, role or activation change that could not be saved is in memory and nowhere else: a
   * restart takes back it and every other one made since the last save.
   */
  lemma RestartForgetsUnsaved(n: Names, d: Dir, id: string, sub: string, username: string, email: string,
                              admin: Option<bool>, active: Option<bool>)
    requires Indexed(n, d) && d.file == d.users
    ensures WellFormed(n, d.file)
    ensures Restarted(n, Linked(d, id, sub, username, email, false).0.file) == d
    ensures Restarted(n, Changed(d, id, admin, active, false).0.file) == d
  {
    SavedFileIsWellFormed(n, d);
    RestartedIsIndexed(n, d.file);
    IndexesAreUnique(n, d, Restarted(n, d.file));
  }

  /** Indexes built from a file are exact exactly when the file repeats no name and no subject. */
  lemma IndexesDecideForm(n: Names, d: Dir)
    requires Covered(n, d, {})
    ensures WellFormed(n, d.users) <==> Indexed(n, d)
  {
  }

  /** And what a store with exact indexes saves is such a file. */
  lemma SavedFileIsWellFormed(n: Names, d: Dir)
    requires Indexed(n, d)
    ensures WellFormed(n, d.users)
  {
  }

  lemma Undone<V>(m: map<string, V>, k: string, v: V)
    requires k !in m
    ensures m[k := v] - {k} == m
  {
  }

  class Store {
    const names: Names
    var users: Users
    var byName: Index
    var bySub: Index
    var file: Users

    function State(): Dir
      reads this
    {
      Dir(users, byName, bySub, file)
    }

    ghost predicate Valid()
      reads this
    {
      Indexed(names, State())
    }

    /** NewStore, on the users a file lists. */
    constructor (names: Names, file: Users)
      ensures this.names == names && users == file && this.file == file
      ensures WellFormed(names, file) <==> Valid()
      ensures WellFormed(names, file) ==> State() == Restarted(names, file)
    {
      this.names := names;
      this.file, users := file, file;
      byName, bySub := map[], map[];
      new;
      BuildIndexes();
      IndexesDecideForm(names, State());
      if WellFormed(names, file) {
        RestartedIsIndexed(names, file);
        IndexesAreUnique(names, State(), Restarted(names, file));
      }
    }

    method BuildIndexes()
      requires byName == map[] && bySub == map[]
      modifies this`byName, this`bySub
      ensures Covered(names, State(), {})
    {
      var todo := users.Keys;
      while todo != {}
        invariant todo <= users.Keys
        invariant Covered(names, State(), todo)
        decreases |todo|
      {
        var id :| id in todo;
        todo := todo - {id};
        var u := users[id];
        byName := byName[names.lower(u.username) := id];
        if u.ssoSub != "" {
          bySub := bySub[u.ssoSub := id];
        }
      }
    }

    method CreateDirectoryUser(username: string, admin: bool, sub: string, ssoUsername: string, email: string,
                               active: bool, id: string, saves: bool) returns (r: Result<User, StoreError>)
      requires Valid() && id !in users
      modifies this
      ensures (State(), r) == Created(names, old(State()), username, admin, sub, ssoUsername, email, active, id, saves)
    {
      var lower := names.lower(names.trim(username));
      if lower == "" {
        return Err(EmptyUsername);
      }
      if lower in byName {
        return Err(UsernameTaken);
      }
      if sub in bySub {
        return Ok(users[bySub[sub]]);
      }
      var u := User(id, names.trim(username), admin, active, false, sub, ssoUsername, email);
      Undone(users, id, u);
      Undone(byName, lower, id);
      Undone(bySub, sub, id);
      users := users[id := u];
      byName := byName[lower := id];
      bySub := bySub[sub := id];
      if !saves {
        users := users - {id};
        byName := byName - {lower};
        bySub := bySub - {sub};
        return Err(NotSaved);
      }
      file := users;
      return Ok(u);
    }

    method LinkSSO(id: string, sub: string, username: string, email: string, saves: bool)
      returns (r: Option<StoreError>)
      modifies this
      ensures (State(), r) == Linked(old(State()), id, sub, username, email, saves)
    {
      if id !in users {
        return Some(NotFound);
      }
      if sub in bySub && bySub[sub] != id {
        return Some(SubjectTaken);
      }
      var u := users[id];
      if u.ssoSub != "" {
        bySub := bySub - {u.ssoSub};
      }
      users := users[id := u.(ssoSub := sub, ssoUsername := username, ssoEmail := email)];
      bySub := bySub[sub := id];
      if !saves {
        return Some(NotSaved);
      }
      file := users;
      return None;
    }

    /** SetRole, Deactivate and Reactivate. */
    method Change(id: string, admin: Option<bool>, active: Option<bool>, saves: bool) returns (r: Option<StoreError>)
      modifies this
      ensures (State(), r) == Changed(old(State()), id, admin, active, saves)
      ensures id !in old(users) ==> r == Some(NotFound) && users == old(users) && file == old(file)
      ensures id in old(users) ==>
        var u := old(users)[id];
        && users == old(users)[id := u.(admin := if admin.Some? then admin.value else u.admin,
                                        active := if active.Some? then active.value else u.active)]
        && r == (if saves then None else Some(NotSaved))
        && file == (if saves then users else old(file))
    {
      if id !in users {
        return Some(NotFound);
      }
      var u := users[id];
      users := users[id := u.(admin := if admin.Some? then admin.value else u.admin,
                              active := if active.Some? then active.value else u.active)];
      if !saves {
        return Some(NotSaved);
      }
      file := users;
      return None;
    }

    method UpdateDirectory(id: string, admin: bool, active: bool, username: string, email: string,
                           deleted: bool, saves: bool) returns (r: Option<StoreError>)
      modifies this
      ensures (State(), r) == Updated(old(State()), id, admin, active, username, email, deleted, saves)
      ensures r == if id !in old(users) then Some(NotFound) else if saves then None else Some(NotSaved)
      ensures r.Some? ==> users == old(users) && file == old(file)
      ensures r.None? ==>
        && users == old(users)[id := old(users)[id].(admin := admin, active := active, ssoUsername := username,
                                                     ssoEmail := email, scimDeleted := deleted)]
        && file == users
    {
      if id !in users {
        return Some(NotFound);
      }
      var before := users[id];
      users := users[id := before.(admin := admin, active := active, ssoUsername := username,
                                   ssoEmail := email, scimDeleted := deleted)];
      if !saves {
        users := users[id := before];
        assert users == old(users);
        return Some(NotSaved);
      }
      file := users;
      return None;
    }
  }

  /** The accounts outside `todo` are indexed, and the indexes name nothing else. */
  predicate Covered(n: Names, d: Dir, todo: set<string>) {
    && (forall name :: name in d.byName ==>
          && d.byName[name] in d.users && d.byName[name] !in todo
          && n.lower(d.users[d.byName[name]].username) == name)
    && (forall sub :: sub in d.bySub ==>
          && sub != "" && d.bySub[sub] in d.users && d.bySub[sub] !in todo
          && d.users[d.bySub[sub]].ssoSub == sub)
    && (forall id :: id in d.users && id !in todo ==> n.lower(d.users[id].username) in d.byName)
    && (forall id :: id in d.users && id !in todo && d.users[id].ssoSub != "" ==> d.users[id].ssoSub in d.bySub)
  }
}
