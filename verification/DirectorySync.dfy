/**
 * The two ways the directory drives the user store - the signed replication webhook and the SCIM
 * resource endpoint, one request at a time - beside local administration and sign-in.
 */
module DirectorySync {
  import opened Wrappers
  import opened Collections
  import opened UserStore

  /** A directory resource; `sub` is the identity, never empty once parsed. */
  datatype Attrs = Attrs(sub: string, username: string, email: string, admin: bool, active: bool)

  datatype Webhook = UserCreated | UserUpdated | UserDeleted

  datatype Status = Done | NoAccount | Duplicate | Ignored | Refused | Failed(error: StoreError)

  function Truncated(s: string, n: nat): string {
    if |s| < n then s else s[..n]
  }

  function SuggestedName(a: Attrs): string {
    if a.username == "" then "user_" + Truncated(a.sub, 8) else a.username
  }

  /** A taken name is suffixed once; the account that holds it is never adopted. */
  function Provisioned(n: Names, d: Dir, a: Attrs, id: string, saves: bool): (Dir, Result<User, StoreError>) {
    var first := Created(n, d, SuggestedName(a), a.admin, a.sub, a.username, a.email, a.active, id, saves);
    if first.1 == Err(UsernameTaken) then
      Created(n, d, SuggestedName(a) + "_" + Truncated(a.sub, 6), a.admin, a.sub, a.username, a.email, a.active, id,
              saves)
    else first
  }

  function StatusOf(r: Option<StoreError>): Status {
    match r
    case None => Done
    case Some(e) => Failed(e)
  }

  function Applied(d: Dir, id: string, a: Attrs, saves: bool): (Dir, Status) {
    var (e, r) := Updated(d, id, a.admin, a.active, a.username, a.email, false, saves);
    (e, StatusOf(r))
  }

  function Buried(d: Dir, id: string, saves: bool): (Dir, Status)
    requires id in d.users
  {
    var u := d.users[id];
    var (e, r) := Updated(d, id, u.admin, false, u.ssoUsername, u.ssoEmail, true, saves);
    (e, StatusOf(r))
  }

  function Find(d: Dir, sub: string): Option<User> {
    if sub in d.bySub && d.bySub[sub] in d.users then Some(d.users[d.bySub[sub]]) else None
  }

  function HandledWebhook(n: Names, d: Dir, event: Webhook, a: Attrs, autoProvision: bool, id: string,
                          saves: bool): (Dir, Status)
  {
    var existing := Find(d, a.sub);
    match event
    case UserCreated =>
      if existing.Some? then
        if Tombstoned(existing.value) then Applied(d, existing.value.id, a, saves) else (d, Duplicate)
      else
        var (e, r) := Provisioned(n, d, a, id, saves);
        (e, if r.Ok? then Done else Failed(r.error))
    case UserUpdated =>
      if existing.None? then
        if !autoProvision then (d, Ignored)
        else
          var (e, r) := Provisioned(n, d, a, id, saves);
          (e, if r.Ok? then Done else Failed(r.error))
      else if Tombstoned(existing.value) then (d, Ignored)
      else Applied(d, existing.value.id, a, saves)
    case UserDeleted =>
      if existing.None? || existing.value.id !in d.users then (d, NoAccount)
      else Buried(d, existing.value.id, saves)
  }

  // ---------------------------------------------------------------- the SCIM endpoint

  /**
   * PUT and PATCH arrive as one complete candidate. A proper one names the user schema and at most
   * one email and one role, and its attributes, or its patch, can be read.
   */
  datatype Verb = Post(proper: bool) | Replace(proper: bool) | Delete

  function ResourceName(u: User): string {
    if u.ssoUsername == "" then u.username else u.ssoUsername
  }

  /** A visible account of another identity already answers to the name. */
  predicate NameInUse(n: Names, d: Dir, a: Attrs) {
    exists id :: id in d.users && d.users[id].ssoSub != a.sub && !Tombstoned(d.users[id])
                 && n.lower(ResourceName(d.users[id])) == n.lower(a.username)
  }

  /**
   * POST takes the identity from the candidate. The others address an account by ID, hide a
   * tombstoned one, and may repeat its identity but not change it. `saves` and `savesAgain` are
   * the writes of the creation and of the update that follows it.
   */
  function HandledSCIM(n: Names, d: Dir, verb: Verb, target: string, a: Attrs, id: string,
                       saves: bool, savesAgain: bool): (Dir, Status)
  {
    if !verb.Post? && (target !in d.users || Tombstoned(d.users[target])) then (d, NoAccount)
    else if verb.Delete? then Buried(d, target, saves)
    else if !verb.proper || n.trim(a.username) == "" || Utf8Length(a.username) > 256 then (d, Refused)
    else if verb.Replace? && a.sub != "" && a.sub != d.users[target].ssoSub then (d, Refused)
    else
      var b := if verb.Replace? then a.(sub := d.users[target].ssoSub) else a;
      if b.sub == "" || Utf8Length(b.sub) > 512 then (d, Refused)
      else if NameInUse(n, d, b) then (d, Duplicate)
      else if verb.Replace? then Applied(d, target, b, saves)
      else
        match Find(d, b.sub)
        case Some(u) => if Tombstoned(u) then Applied(d, u.id, b, saves) else (d, Duplicate)
        case None =>
          var (e, r) := Provisioned(n, d, b, id, saves);
          if r.Err? then (e, Failed(r.error)) else Applied(e, r.value.id, b, savesAgain)
  }

  // ---------------------------------------------------------------- what a request comes to

  /** An account with the directory's attributes on it, and one the directory has deleted. */
  function WithAttrs(u: User, a: Attrs): User {
    u.(admin := a.admin, active := a.active, ssoUsername := a.username, ssoEmail := a.email, scimDeleted := false)
  }

  function Deleted(u: User): User {
    u.(active := false, scimDeleted := true)
  }

  /** The one account that has a subject. */
  predicate Has(d: Dir, sub: string, id: string) {
    id in d.users && d.users[id].ssoSub == sub
  }

  lemma FindIsExact(n: Names, d: Dir, sub: string)
    requires Indexed(n, d) && sub != ""
    ensures Find(d, sub).Some? <==> SubjectHeld(d, sub)
    ensures forall id :: Has(d, sub, id) ==> Find(d, sub) == Some(d.users[id]) && d.users[id].id == id
  {
    IndexesMeanHeld(n, d, "", sub);
  }

  /** What a webhook comes to for a subject some account has. */
  lemma KnownSubjectWebhook(n: Names, d: Dir, event: Webhook, a: Attrs, auto: bool, id: string, saves: bool,
                            who: string)
    requires Indexed(n, d) && a.sub != "" && Has(d, a.sub, who)
    ensures
      var (e, status) := HandledWebhook(n, d, event, a, auto, id, saves);
      var u := d.users[who];
      match event
      case UserCreated =>
        if !(u.scimDeleted && !u.active) then e == d && status == Duplicate
        else if saves then e.users == e.file == d.users[who := WithAttrs(u, a)] && status == Done
        else e == d && status == Failed(NotSaved)
      case UserUpdated =>
        if u.scimDeleted && !u.active then e == d && status == Ignored
        else if saves then e.users == e.file == d.users[who := WithAttrs(u, a)] && status == Done
        else e == d && status == Failed(NotSaved)
      case UserDeleted =>
        if saves then e.users == e.file == d.users[who := Deleted(u)] && status == Done
        else e == d && status == Failed(NotSaved)
  {
    FindIsExact(n, d, a.sub);
  }

  /** And for one nobody has. */
  lemma UnknownSubjectWebhook(n: Names, d: Dir, event: Webhook, a: Attrs, auto: bool, id: string, saves: bool)
    requires Indexed(n, d) && a.sub != "" && !SubjectHeld(d, a.sub)
    ensures
      var (e, status) := HandledWebhook(n, d, event, a, auto, id, saves);
      match event
      case UserDeleted => e == d && status == NoAccount
      case UserUpdated => if !auto then e == d && status == Ignored else e == Provisioned(n, d, a, id, saves).0
      case UserCreated => e == Provisioned(n, d, a, id, saves).0
  {
    FindIsExact(n, d, a.sub);
  }

  /** An unknown subject gets an account of the name it came with, or of that name and part of the subject. */
  lemma ProvisionIsExact(n: Names, d: Dir, a: Attrs, id: string, saves: bool)
    requires Indexed(n, d) && a.sub != "" && !SubjectHeld(d, a.sub)
    ensures
      var (e, r) := Provisioned(n, d, a, id, saves);
      var wanted := if a.username == "" then "user_" + Truncated(a.sub, 8) else a.username;
      var taken := NameHeld(n, d, n.lower(n.trim(wanted))) && n.lower(n.trim(wanted)) != "";
      var name := if taken then wanted + "_" + Truncated(a.sub, 6) else wanted;
      && (r.Ok? <==> saves && n.lower(n.trim(name)) != "" && !NameHeld(n, d, n.lower(n.trim(name))))
      && (r.Ok? ==>
            && r.value == User(id, n.trim(name), a.admin, a.active, false, a.sub, a.username, a.email)
            && e.users == e.file == d.users[id := r.value])
      && (r.Err? ==> e == d)
  {
    var wanted := SuggestedName(a);
    CreationIsExact(n, d, wanted, a.admin, a.sub, a.username, a.email, a.active, id, saves);
    CreationIsExact(n, d, wanted + "_" + Truncated(a.sub, 6), a.admin, a.sub, a.username, a.email, a.active, id, saves);
  }

  predicate Hidden(d: Dir, target: string) {
    target !in d.users || (d.users[target].scimDeleted && !d.users[target].active)
  }

  /** What a SCIM delete comes to: a hidden account is not found. */
  lemma ScimDeleteIsExact(n: Names, d: Dir, target: string, a: Attrs, id: string, saves: bool, again: bool)
    ensures
      var (e, status) := HandledSCIM(n, d, Delete, target, a, id, saves, again);
      if Hidden(d, target) then e == d && status == NoAccount
      else if saves then e.users == e.file == d.users[target := Deleted(d.users[target])] && status == Done
      else e == d && status == Failed(NotSaved)
  {
  }

  /** And a replace: only a fit request, which does not change the identity, changes the account. */
  lemma ScimReplaceIsExact(n: Names, d: Dir, proper: bool, target: string, a: Attrs, id: string, saves: bool,
                           again: bool)
    ensures
      var (e, status) := HandledSCIM(n, d, Replace(proper), target, a, id, saves, again);
      if Hidden(d, target) then e == d && status == NoAccount
      else
        var u := d.users[target];
        if !(FitToCreate(n, proper, a.(sub := u.ssoSub)) && (a.sub == "" || a.sub == u.ssoSub)) then
          e == d && status == Refused
        else if NameInUse(n, d, a.(sub := u.ssoSub)) then e == d && status == Duplicate
        else if saves then e.users == e.file == d.users[target := WithAttrs(u, a)] && status == Done
        else e == d && status == Failed(NotSaved)
  {
  }

  /** A name is in use by another identity's visible account that shows it, under its directory name or its own. */
  lemma NameInUseMeans(n: Names, d: Dir, a: Attrs)
    ensures
      NameInUse(n, d, a) <==>
      exists id :: id in d.users && d.users[id].ssoSub != a.sub && !Hidden(d, id)
        && (d.users[id].ssoUsername != "" ==> n.lower(d.users[id].ssoUsername) == n.lower(a.username))
        && (d.users[id].ssoUsername == "" ==> n.lower(d.users[id].username) == n.lower(a.username))
  {
  }

  /** Whether a create is fit to be looked at. */
  predicate FitToCreate(n: Names, proper: bool, a: Attrs) {
    && proper && n.trim(a.username) != "" && Utf8Length(a.username) <= 256
    && a.sub != "" && Utf8Length(a.sub) <= 512
  }

  /** What a SCIM create comes to if it is not fit, or its name is in use by another identity. */
  lemma ScimPostRefused(n: Names, d: Dir, proper: bool, target: string, a: Attrs, id: string, saves: bool, again: bool)
    ensures
      var (e, status) := HandledSCIM(n, d, Post(proper), target, a, id, saves, again);
      && (status == Refused <==> !FitToCreate(n, proper, a))
      && (FitToCreate(n, proper, a) && NameInUse(n, d, a) ==> status == Duplicate)
      && (status == Refused || status == Duplicate ==> e == d)
  {
  }

  /** And otherwise, for a subject some account has. */
  lemma ScimPostKnown(n: Names, d: Dir, target: string, a: Attrs, id: string, saves: bool, again: bool, who: string)
    requires Indexed(n, d) && FitToCreate(n, true, a) && !NameInUse(n, d, a) && Has(d, a.sub, who)
    ensures
      var (e, status) := HandledSCIM(n, d, Post(true), target, a, id, saves, again);
      var u := d.users[who];
      if !(u.scimDeleted && !u.active) then e == d && status == Duplicate
      else if saves then e.users == e.file == d.users[who := WithAttrs(u, a)] && status == Done
      else e == d && status == Failed(NotSaved)
  {
    FindIsExact(n, d, a.sub);
  }

  /** And for one nobody has: the account is there once created, whether or not the second write lands. */
  lemma ScimPostUnknown(n: Names, d: Dir, target: string, a: Attrs, id: string, saves: bool, again: bool)
    requires Indexed(n, d) && FitToCreate(n, true, a) && !NameInUse(n, d, a) && !SubjectHeld(d, a.sub)
    ensures
      var (e, status) := HandledSCIM(n, d, Post(true), target, a, id, saves, again);
      var (f, r) := Provisioned(n, d, a, id, saves);
      && (r.Ok? ==> e.users == e.file == f.users)
      && (r.Err? ==> e == d)
      && (status == Done <==> r.Ok? && again)
  {
    FindIsExact(n, d, a.sub);
    ProvisionIsExact(n, d, a, id, saves);
    var (f, r) := Provisioned(n, d, a, id, saves);
    if r.Ok? {
      assert f.users[id] == WithAttrs(f.users[id], a);
      assert f.users[id := f.users[id]] == f.users;
    }
  }

  // ---------------------------------------------------------------- runs

  datatype Event =
    | Hook(event: Webhook, a: Attrs, autoProvision: bool)
    | Scim(verb: Verb, target: string, a: Attrs, savesAgain: bool)
    | SignIn(a: Attrs)                                  // first sign-in of an unknown subject
    | Link(target: string, sub: string, username: string, email: string)
    | Local(target: string, admin: Option<bool>, active: Option<bool>)
    | Restart

  predicate HasSubject(ev: Event) {
    match ev
    case Hook(_, a, _) => a.sub != ""
    case Scim(_, _, _, _) => true
    case SignIn(a) => a.sub != ""
    case Link(_, sub, _, _) => sub != ""
    case Local(_, _, _) => true
    case Restart => true
  }

  function Step(n: Names, d: Dir, ev: Event, id: string, saves: bool): Dir {
    match ev
    case Hook(event, a, auto) => HandledWebhook(n, d, event, a, auto, id, saves).0
    case Scim(verb, target, a, again) => HandledSCIM(n, d, verb, target, a, id, saves, again).0
    case SignIn(a) => Provisioned(n, d, a.(active := true), id, saves).0
    case Link(target, sub, username, email) => Linked(d, target, sub, username, email, saves).0
    case Local(target, admin, active) => Changed(d, target, admin, active, saves).0
    case Restart => if WellFormed(n, d.file) then Restarted(n, d.file) else d
  }

  /** Each request draws one account ID and meets one outcome of its (first) write. */
  datatype Request = Request(ev: Event, id: string, saves: bool)

  function Run(n: Names, d: Dir, rs: seq<Request>): Dir
    decreases |rs|
  {
    if rs == [] then d else Run(n, Step(n, d, rs[0].ev, rs[0].id, rs[0].saves), rs[1..])
  }

  /** No identity is empty and no drawn ID is one already in use. */
  predicate Fresh(n: Names, d: Dir, rs: seq<Request>)
    decreases |rs|
  {
    rs != [] ==>
      && HasSubject(rs[0].ev) && rs[0].id !in d.users
      && Fresh(n, Step(n, d, rs[0].ev, rs[0].id, rs[0].saves), rs[1..])
  }

  predicate IsDirectoryEvent(ev: Event) {
    ev.Hook? || ev.Scim?
  }

  /** The one thing that may lift a tombstone: a create for its subject, or a local reactivation. */
  predicate Restores(d: Dir, ev: Event, u: User) {
    match ev
    case Hook(event, a, _) => event == UserCreated && a.sub == u.ssoSub
    case Scim(verb, _, a, _) => verb.Post? && a.sub == u.ssoSub
    case Local(target, _, active) => target == u.id && active == Some(true)
    case _ => false
  }

  // ---------------------------------------------------------------- what each step keeps

  /** Accounts stay, subjects keep naming the accounts they name. */
  predicate Extends(d: Dir, e: Dir) {
    && d.users.Keys <= e.users.Keys
    && (forall sub :: sub in d.bySub ==> sub in e.bySub && e.bySub[sub] == d.bySub[sub])
  }

  /** What a run keeps: exact indexes, and a file that would give exact ones for the same accounts. */
  predicate Sound(n: Names, d: Dir) {
    Indexed(n, d) && WellFormed(n, d.file) && d.file.Keys == d.users.Keys
  }

  /** A directory event is saved or has not happened. */
  predicate Saved(d: Dir, e: Dir) {
    e == d || e.file == e.users
  }

  /** Every tombstoned account but the one at `but` is exactly as it was. */
  predicate TombstonesStay(d: Dir, e: Dir, but: Option<string>) {
    forall id :: id in d.users && Tombstoned(d.users[id]) && but != Some(id) ==>
      id in e.users && e.users[id] == d.users[id]
  }

  /** What a creation, taken or not, leaves. */
  predicate GoodCreation(n: Names, d: Dir, sub: string, id: string, out: (Dir, Result<User, StoreError>)) {
    var (e, r) := out;
    && Indexed(n, e) && Extends(d, e) && Saved(d, e) && TombstonesStay(d, e, None)
    && (r.Ok? ==> r.value.ssoSub == sub && r.value.id in e.users && e.users[r.value.id] == r.value)
    && (r.Ok? && sub !in d.bySub ==> r.value.id == id)
  }

  /** A creation adds one account and saves it, or changes nothing. */
  lemma CreationAdds(n: Names, d: Dir, username: string, a: Attrs, id: string, saves: bool)
    ensures
      var (e, r) := Created(n, d, username, a.admin, a.sub, a.username, a.email, a.active, id, saves);
      || e == d
      || (r.Ok? && a.sub !in d.bySub && e.bySub == d.bySub[a.sub := id] && e.users == d.users[id := r.value]
          && r.value.id == id && e.file == e.users)
  {
  }

  lemma CreateStep(n: Names, d: Dir, username: string, a: Attrs, id: string, saves: bool)
    requires Indexed(n, d) && id !in d.users && a.sub != ""
    ensures GoodCreation(n, d, a.sub, id,
                         Created(n, d, username, a.admin, a.sub, a.username, a.email, a.active, id, saves))
  {
    CreationKeepsIndex(n, d, username, a.admin, a.sub, a.username, a.email, a.active, id, saves);
    CreationAdds(n, d, username, a, id, saves);
    CreatedIsThere(n, d, username, a, id, saves);
  }

  lemma CreatedIsThere(n: Names, d: Dir, username: string, a: Attrs, id: string, saves: bool)
    requires Indexed(n, d)
    ensures
      var (e, r) := Created(n, d, username, a.admin, a.sub, a.username, a.email, a.active, id, saves);
      && (r.Ok? ==> r.value.id in e.users && e.users[r.value.id] == r.value)
      && (r.Ok? && a.sub !in d.bySub ==> r.value.id == id)
  {
  }

  lemma ProvisionStep(n: Names, d: Dir, a: Attrs, id: string, saves: bool)
    requires Indexed(n, d) && id !in d.users && a.sub != ""
    ensures GoodCreation(n, d, a.sub, id, Provisioned(n, d, a, id, saves))
  {
    CreateStep(n, d, SuggestedName(a), a, id, saves);
    CreateStep(n, d, SuggestedName(a) + "_" + Truncated(a.sub, 6), a, id, saves);
  }

  lemma ApplyStep(n: Names, d: Dir, id: string, a: Attrs, saves: bool)
    requires Indexed(n, d)
    ensures
      var e := Applied(d, id, a, saves).0;
      Indexed(n, e) && Extends(d, e) && Saved(d, e) && TombstonesStay(d, e, Some(id))
  {
    UpdateKeepsIndex(n, d, id, a.admin, a.active, a.username, a.email, false, saves);
  }

  lemma BuryStep(n: Names, d: Dir, id: string, saves: bool)
    requires Indexed(n, d) && id in d.users
    ensures
      var (e, r) := Buried(d, id, saves);
      && Indexed(n, e) && Extends(d, e) && Saved(d, e) && TombstonesStay(d, e, Some(id))
      && (r == Done ==> Tombstoned(e.users[id]) && e.users[id].ssoSub == d.users[id].ssoSub)
      && (Tombstoned(d.users[id]) ==> e.users[id] == d.users[id])
  {
    var u := d.users[id];
    UpdateKeepsIndex(n, d, id, u.admin, false, u.ssoUsername, u.ssoEmail, true, saves);
  }

  lemma HookOutcome(n: Names, d: Dir, event: Webhook, a: Attrs, auto: bool, id: string, saves: bool)
    requires Indexed(n, d)
    ensures
      var e := HandledWebhook(n, d, event, a, auto, id, saves).0;
      if a.sub !in d.bySub then e == d || e == Provisioned(n, d, a, id, saves).0
      else
        var u := d.bySub[a.sub];
        && u in d.users
        && (|| e == d
            || (e == Applied(d, u, a, saves).0 && (event == UserCreated || !Tombstoned(d.users[u])))
            || e == Buried(d, u, saves).0)
  {
  }

  lemma HookStep(n: Names, d: Dir, event: Webhook, a: Attrs, auto: bool, id: string, saves: bool)
    requires Indexed(n, d) && id !in d.users && a.sub != ""
    ensures
      var e := HandledWebhook(n, d, event, a, auto, id, saves).0;
      && Indexed(n, e) && Extends(d, e) && Saved(d, e)
      && TombstonesStay(d, e, if event == UserCreated && a.sub in d.bySub then Some(d.bySub[a.sub]) else None)
  {
    HookOutcome(n, d, event, a, auto, id, saves);
    if a.sub in d.bySub {
      var u := d.bySub[a.sub];
      ApplyStep(n, d, u, a, saves);
      BuryStep(n, d, u, saves);
    } else {
      ProvisionStep(n, d, a, id, saves);
    }
  }

  lemma ScimTargetOutcome(n: Names, d: Dir, verb: Verb, target: string, a: Attrs, id: string, saves: bool, again: bool)
    requires !verb.Post?
    ensures
      var e := HandledSCIM(n, d, verb, target, a, id, saves, again).0;
      || e == d
      || (target in d.users && !Tombstoned(d.users[target])
          && (e == Buried(d, target, saves).0
              || e == Applied(d, target, a.(sub := d.users[target].ssoSub), saves).0))
  {
  }

  lemma ScimTargetStep(n: Names, d: Dir, verb: Verb, target: string, a: Attrs, id: string, saves: bool, again: bool)
    requires Indexed(n, d) && !verb.Post?
    ensures
      var e := HandledSCIM(n, d, verb, target, a, id, saves, again).0;
      Indexed(n, e) && Extends(d, e) && Saved(d, e) && TombstonesStay(d, e, None)
  {
    ScimTargetOutcome(n, d, verb, target, a, id, saves, again);
    if target in d.users && !Tombstoned(d.users[target]) {
      BuryStep(n, d, target, saves);
      ApplyStep(n, d, target, a.(sub := d.users[target].ssoSub), saves);
    }
  }

  lemma ScimPostOutcome(n: Names, d: Dir, proper: bool, target: string, a: Attrs, id: string, saves: bool, again: bool)
    ensures
      var e := HandledSCIM(n, d, Post(proper), target, a, id, saves, again).0;
      var (f, r) := Provisioned(n, d, a, id, saves);
      || e == d
      || (Find(d, a.sub).Some? && e == Applied(d, Find(d, a.sub).value.id, a, saves).0)
      || (Find(d, a.sub).None? && a.sub != "" && (e == f || (r.Ok? && e == Applied(f, r.value.id, a, again).0)))
  {
  }

  lemma ScimPostStep(n: Names, d: Dir, proper: bool, target: string, a: Attrs, id: string, saves: bool, again: bool)
    requires Indexed(n, d) && id !in d.users
    ensures
      var e := HandledSCIM(n, d, Post(proper), target, a, id, saves, again).0;
      && Indexed(n, e) && Extends(d, e) && Saved(d, e)
      && TombstonesStay(d, e, if a.sub in d.bySub then Some(d.bySub[a.sub]) else None)
  {
    ScimPostOutcome(n, d, proper, target, a, id, saves, again);
    if a.sub in d.bySub {
      ApplyStep(n, d, d.bySub[a.sub], a, saves);
    } else if a.sub != "" {
      ProvisionStep(n, d, a, id, saves);
      if Provisioned(n, d, a, id, saves).1.Ok? {
        CreatedThenApplied(n, d, a, id, saves, again);
      }
    }
  }

  lemma CreatedThenApplied(n: Names, d: Dir, a: Attrs, id: string, saves: bool, again: bool)
    requires Indexed(n, d) && id !in d.users && a.sub != "" && a.sub !in d.bySub
    requires Provisioned(n, d, a, id, saves).1.Ok?
    ensures
      var f := Provisioned(n, d, a, id, saves);
      var e := Applied(f.0, f.1.value.id, a, again).0;
      Indexed(n, e) && Extends(d, e) && e.file == e.users && TombstonesStay(d, e, None)
  {
    ProvisionStep(n, d, a, id, saves);
    var (f, r) := Provisioned(n, d, a, id, saves);
    ApplyStep(n, f, id, a, again);
  }

  /** The account whose tombstone a directory event may lift. */
  function Lifted(d: Dir, ev: Event): Option<string> {
    match ev
    case Hook(UserCreated, a, _) => if a.sub in d.bySub then Some(d.bySub[a.sub]) else None
    case Scim(Post(_), _, a, _) => if a.sub in d.bySub then Some(d.bySub[a.sub]) else None
    case _ => None
  }

  lemma DirectoryStep(n: Names, d: Dir, ev: Event, id: string, saves: bool)
    requires Indexed(n, d) && HasSubject(ev) && id !in d.users && (IsDirectoryEvent(ev) || ev.SignIn?)
    ensures
      var e := Step(n, d, ev, id, saves);
      Indexed(n, e) && Extends(d, e) && Saved(d, e) && TombstonesStay(d, e, Lifted(d, ev))
  {
    match ev
    case Hook(event, a, auto) => HookStep(n, d, event, a, auto, id, saves);
    case Scim(verb, target, a, again) =>
      if verb.Post? { ScimPostStep(n, d, verb.proper, target, a, id, saves, again); }
      else { ScimTargetStep(n, d, verb, target, a, id, saves, again); }
    case SignIn(a) => ProvisionStep(n, d, a.(active := true), id, saves);
  }

  /** Any other step keeps the accounts, and leaves the file as it was or as the table is. */
  predicate KeepsAccounts(n: Names, d: Dir, e: Dir) {
    Indexed(n, e) && e.users.Keys == d.users.Keys && (e.file == d.file || e.file == e.users)
  }

  lemma LinkStep(n: Names, d: Dir, id: string, sub: string, username: string, email: string, saves: bool)
    requires Indexed(n, d) && sub != ""
    ensures KeepsAccounts(n, d, Linked(d, id, sub, username, email, saves).0)
  {
    LinkKeepsIndex(n, d, id, sub, username, email, saves);
  }

  lemma ChangeStep(n: Names, d: Dir, id: string, admin: Option<bool>, active: Option<bool>, saves: bool)
    requires Indexed(n, d)
    ensures KeepsAccounts(n, d, Changed(d, id, admin, active, saves).0)
  {
    ChangeKeepsIndex(n, d, id, admin, active, saves);
  }

  lemma LocalStep(n: Names, d: Dir, ev: Event, id: string, saves: bool)
    requires Sound(n, d) && HasSubject(ev) && (ev.Link? || ev.Local? || ev.Restart?)
    ensures KeepsAccounts(n, d, Step(n, d, ev, id, saves))
  {
    match ev
    case Link(target, sub, username, email) => LinkStep(n, d, target, sub, username, email, saves);
    case Local(target, admin, active) => ChangeStep(n, d, target, admin, active, saves);
    case Restart => RestartedIsIndexed(n, d.file);
  }

  lemma StepKeeps(n: Names, d: Dir, ev: Event, id: string, saves: bool)
    requires Sound(n, d) && HasSubject(ev) && id !in d.users
    ensures
      var e := Step(n, d, ev, id, saves);
      && Sound(n, e) && d.users.Keys <= e.users.Keys
      && (e.file == d.file || e.file == e.users)
  {
    if IsDirectoryEvent(ev) || ev.SignIn? {
      DirectoryStep(n, d, ev, id, saves);
    } else {
      LocalStep(n, d, ev, id, saves);
    }
    SavedFileIsWellFormed(n, Step(n, d, ev, id, saves));
  }

  /**
   * A tombstone is lifted by a create for its subject or a local reactivation, or by a restart that
   * reads it lifted from the file, and by nothing else.
   */
  lemma TombstoneOutlivesUpdates(n: Names, d: Dir, ev: Event, id: string, saves: bool, who: string)
    requires Sound(n, d) && HasSubject(ev) && id !in d.users
    requires who in d.users && Tombstoned(d.users[who]) && !Restores(d, ev, d.users[who])
    ensures
      var e := Step(n, d, ev, id, saves);
      who in e.users && (Tombstoned(e.users[who]) <==> (ev == Restart ==> Tombstoned(d.file[who])))
  {
    if IsDirectoryEvent(ev) || ev.SignIn? {
      DirectoryStep(n, d, ev, id, saves);
      LiftingRestores(n, d, ev, who);
    } else {
      LocalTombstones(n, d, ev, id, saves, who);
    }
  }

  lemma LiftingRestores(n: Names, d: Dir, ev: Event, who: string)
    requires Indexed(n, d) && who in d.users
    ensures Lifted(d, ev) == Some(who) ==> Restores(d, ev, d.users[who])
  {
  }

  lemma LocalTombstones(n: Names, d: Dir, ev: Event, id: string, saves: bool, who: string)
    requires Keyed(d.users) && WellFormed(n, d.file) && d.file.Keys == d.users.Keys
    requires ev.Link? || ev.Local? || ev.Restart?
    requires who in d.users && Tombstoned(d.users[who]) && !Restores(d, ev, d.users[who])
    ensures
      var e := Step(n, d, ev, id, saves);
      who in e.users && (Tombstoned(e.users[who]) <==> (ev == Restart ==> Tombstoned(d.file[who])))
  {
    match ev
    case Link(target, sub, username, email) => LinkKeepsTombstones(d, target, sub, username, email, saves, who);
    case Local(target, admin, active) => ChangeKeepsTombstones(d, target, admin, active, saves, who);
    case Restart =>
  }

  lemma LinkKeepsTombstones(d: Dir, id: string, sub: string, username: string, email: string, saves: bool, who: string)
    requires who in d.users && Tombstoned(d.users[who])
    ensures
      var e := Linked(d, id, sub, username, email, saves).0;
      who in e.users && Tombstoned(e.users[who])
  {
  }

  lemma ChangeKeepsTombstones(d: Dir, id: string, admin: Option<bool>, active: Option<bool>, saves: bool, who: string)
    requires who in d.users && Tombstoned(d.users[who]) && !(id == who && active == Some(true))
    ensures
      var e := Changed(d, id, admin, active, saves).0;
      who in e.users && Tombstoned(e.users[who])
  {
  }

  // ---------------------------------------------------------------- the results

  /**
   * Over any run of directory events, sign-ins, links, local changes and restarts, whatever fails to
   * save: the indexes stay the exact inverses of the table, the file stays one that would give exact
   * ones, and no account is ever removed from either.
   */
  lemma {:induction false} DirectoryStaysIndexed(n: Names, d: Dir, rs: seq<Request>)
    requires Sound(n, d) && Fresh(n, d, rs)
    ensures Sound(n, Run(n, d, rs)) && d.users.Keys <= Run(n, d, rs).users.Keys
    decreases |rs|
  {
    if rs != [] {
      StepKeeps(n, d, rs[0].ev, rs[0].id, rs[0].saves);
      DirectoryStaysIndexed(n, Step(n, d, rs[0].ev, rs[0].id, rs[0].saves), rs[1..]);
    }
  }

  /**
   * From a store with nothing unsaved, under directory events, sign-ins and restarts, a subject goes
   * on naming the account it named, and nothing is ever unsaved.
   */
  lemma {:induction false} SubjectsKeepTheirAccounts(n: Names, d: Dir, rs: seq<Request>)
    requires Sound(n, d) && d.file == d.users && Fresh(n, d, rs)
    requires forall i :: 0 <= i < |rs| ==> IsDirectoryEvent(rs[i].ev) || rs[i].ev.SignIn? || rs[i].ev == Restart
    ensures Extends(d, Run(n, d, rs)) && Run(n, d, rs).file == Run(n, d, rs).users
    decreases |rs|
  {
    if rs != [] {
      var e := Step(n, d, rs[0].ev, rs[0].id, rs[0].saves);
      StepKeeps(n, d, rs[0].ev, rs[0].id, rs[0].saves);
      if rs[0].ev == Restart {
        RestartedIsIndexed(n, d.file);
        IndexesAreUnique(n, d, e);
      } else {
        DirectoryStep(n, d, rs[0].ev, rs[0].id, rs[0].saves);
      }
      SubjectsKeepTheirAccounts(n, e, rs[1..]);
    }
  }

  /** Nothing in the run may lift the tombstone of `who`. */
  predicate NeverRestored(n: Names, d: Dir, rs: seq<Request>, who: string)
    decreases |rs|
  {
    rs != [] && who in d.users ==>
      && !Restores(d, rs[0].ev, d.users[who])
      && NeverRestored(n, Step(n, d, rs[0].ev, rs[0].id, rs[0].saves), rs[1..], who)
  }

  /** So a deletion that has been saved stays for as long as neither happens, whatever else does. */
  lemma {:induction false} TombstoneHoldsOverRuns(n: Names, d: Dir, rs: seq<Request>, who: string)
    requires Sound(n, d) && Fresh(n, d, rs)
    requires who in d.users && Tombstoned(d.users[who]) && Tombstoned(d.file[who]) && NeverRestored(n, d, rs, who)
    ensures
      var e := Run(n, d, rs);
      Sound(n, e) && who in e.users && Tombstoned(e.users[who]) && Tombstoned(e.file[who])
    decreases |rs|
  {
    if rs != [] {
      StepKeeps(n, d, rs[0].ev, rs[0].id, rs[0].saves);
      TombstoneOutlivesUpdates(n, d, rs[0].ev, rs[0].id, rs[0].saves, who);
      TombstoneHoldsOverRuns(n, Step(n, d, rs[0].ev, rs[0].id, rs[0].saves), rs[1..], who);
    }
  }

  // ---------------------------------------------------------------- the handlers

  class Handlers {
    const store: Store

    constructor (store: Store)
      ensures this.store == store
    {
      this.store := store;
    }

    method GetBySSOSub(sub: string) returns (u: Option<User>)
      requires store.Valid()
      ensures u == Find(store.State(), sub)
    {
      if sub !in store.bySub {
        return None;
      }
      return Some(store.users[store.bySub[sub]]);
    }

    method ProvisionFromSCIM(a: Attrs, id: string, saves: bool) returns (r: Result<User, StoreError>)
      requires store.Valid() && id !in store.users
      modifies store
      ensures (store.State(), r) == Provisioned(store.names, old(store.State()), a, id, saves)
    {
      var username := a.username;
      if username == "" {
        username := "user_" + Truncated(a.sub, 8);
      }
      r := store.CreateDirectoryUser(username, a.admin, a.sub, a.username, a.email, a.active, id, saves);
      if r == Err(UsernameTaken) {
        r := store.CreateDirectoryUser(username + "_" + Truncated(a.sub, 6), a.admin, a.sub, a.username, a.email,
                                       a.active, id, saves);
      }
    }

    method ApplySCIMUpdate(id: string, a: Attrs, saves: bool) returns (status: Status)
      modifies store
      ensures (store.State(), status) == Applied(old(store.State()), id, a, saves)
    {
      var r := store.UpdateDirectory(id, a.admin, a.active, a.username, a.email, false, saves);
      status := StatusOf(r);
    }

    method Bury(u: User, saves: bool) returns (status: Status)
      requires u.id in store.users && store.users[u.id] == u
      modifies store
      ensures (store.State(), status) == Buried(old(store.State()), u.id, saves)
    {
      var r := store.UpdateDirectory(u.id, u.admin, false, u.ssoUsername, u.ssoEmail, true, saves);
      status := StatusOf(r);
    }

    method HandleSyncWebhook(event: Webhook, a: Attrs, autoProvision: bool, id: string, saves: bool)
      returns (status: Status)
      requires store.Valid() && id !in store.users
      modifies store
      ensures (store.State(), status) ==
              HandledWebhook(store.names, old(store.State()), event, a, autoProvision, id, saves)
    {
      var existing := GetBySSOSub(a.sub);
      match event {
        case UserCreated =>
          if existing.Some? {
            if !Tombstoned(existing.value) {
              return Duplicate;
            }
            status := ApplySCIMUpdate(existing.value.id, a, saves);
          } else {
            var created := ProvisionFromSCIM(a, id, saves);
            status := if created.Ok? then Done else Failed(created.error);
          }
        case UserUpdated =>
          if existing.None? {
            if !autoProvision {
              return Ignored;
            }
            var created := ProvisionFromSCIM(a, id, saves);
            status := if created.Ok? then Done else Failed(created.error);
          } else if Tombstoned(existing.value) {
            status := Ignored;
          } else {
            status := ApplySCIMUpdate(existing.value.id, a, saves);
          }
        case UserDeleted =>
          if existing.None? {
            return NoAccount;
          }
          status := Bury(existing.value, saves);
      }
    }

    method NameTaken(a: Attrs) returns (taken: bool)
      ensures taken == NameInUse(store.names, store.State(), a)
    {
      var todo := store.users.Keys;
      while todo != {}
        invariant todo <= store.users.Keys
        invariant forall id :: id in store.users && id !in todo ==>
          !(store.users[id].ssoSub != a.sub && !Tombstoned(store.users[id])
            && store.names.lower(ResourceName(store.users[id])) == store.names.lower(a.username))
        decreases |todo|
      {
        var id :| id in todo;
        var u := store.users[id];
        if u.ssoSub != a.sub && !Tombstoned(u) && store.names.lower(ResourceName(u)) == store.names.lower(a.username) {
          return true;
        }
        todo := todo - {id};
      }
      return false;
    }

    method HandleSCIMUser(verb: Verb, target: string, a: Attrs, id: string, saves: bool, savesAgain: bool)
      returns (status: Status)
      requires store.Valid() && id !in store.users
      modifies store
      ensures (store.State(), status) ==
              HandledSCIM(store.names, old(store.State()), verb, target, a, id, saves, savesAgain)
    {
      if !verb.Post? && (target !in store.users || Tombstoned(store.users[target])) {
        return NoAccount;
      }
      if verb.Delete? {
        status := Bury(store.users[target], saves);
        return;
      }
      if !verb.proper || store.names.trim(a.username) == "" || Utf8Length(a.username) > 256 {
        return Refused;
      }
      var candidate := a;
      if verb.Replace? {
        if a.sub != "" && a.sub != store.users[target].ssoSub {
          return Refused;
        }
        candidate := a.(sub := store.users[target].ssoSub);
      }
      if candidate.sub == "" || Utf8Length(candidate.sub) > 512 {
        return Refused;
      }
      var taken := NameTaken(candidate);
      if taken {
        return Duplicate;
      }
      if verb.Replace? {
        status := ApplySCIMUpdate(target, candidate, saves);
        return;
      }
      status := PostUser(candidate, id, saves, savesAgain);
    }

    /** POST past the checks: a retained account is restored, an unknown subject provisioned. */
    method PostUser(a: Attrs, id: string, saves: bool, savesAgain: bool) returns (status: Status)
      requires store.Valid() && id !in store.users
      modifies store
      ensures (store.State(), status) ==
        var d := old(store.State());
        match Find(d, a.sub)
        case Some(u) => if Tombstoned(u) then Applied(d, u.id, a, saves) else (d, Duplicate)
        case None =>
          var (e, r) := Provisioned(store.names, d, a, id, saves);
          if r.Err? then (e, Failed(r.error)) else Applied(e, r.value.id, a, savesAgain)
    {
      var found := GetBySSOSub(a.sub);
      if found.Some? {
        if !Tombstoned(found.value) {
          return Duplicate;
        }
        status := ApplySCIMUpdate(found.value.id, a, saves);
        return;
      }
      var created := ProvisionFromSCIM(a, id, saves);
      if created.Err? {
        return Failed(created.error);
      }
      status := ApplySCIMUpdate(created.value.id, a, savesAgain);
    }
  }
}
