/**
 * Outstanding device pairings: a pairing is redeemable by its six-digit PIN or by its secret,
 * each through a map of its own.
 */
module Pairings {
  import opened Wrappers
  import opened LogoutLog

  datatype Pairing = Pairing(pin: string, user: string, secret: string, expiresAt: int, origin: Identity)

  datatype Table = Table(pins: map<string, Pairing>, codes: map<string, Pairing>)

  const EMPTY := Table(map[], map[])
  const PAIRING_LIFETIME := 90 * 1_000_000_000

  function Created(t: Table, p: Pairing): Table {
    Table(t.pins[p.pin := p], t.codes[p.secret := p])
  }

  function Find(t: Table, code: string): Option<Pairing> {
    var m := if |code| == 6 then t.pins else t.codes;
    if code in m then Some(m[code]) else None
  }

  function Redemption(t: Table, code: string, now: int): (Table, Option<Pairing>) {
    match Find(t, code)
    case None => (t, None)
    case Some(p) =>
      if now > p.expiresAt then (t, None)
      else (Table(t.pins - {p.pin}, t.codes - {p.secret}), Some(p))
  }

  /** The secrets the user's PINs lead to, among some of the PINs. */
  function SecretsAmong(pins: map<string, Pairing>, among: set<string>, user: string): set<string> {
    set pin | pin in among && pin in pins && pins[pin].user == user :: pins[pin].secret
  }

  /** What is left of the PINs once those outside `todo` have been looked at. */
  function PinsLeft(pins: map<string, Pairing>, todo: set<string>, user: string): map<string, Pairing> {
    map pin | pin in pins && (pin in todo || pins[pin].user != user) :: pins[pin]
  }

  lemma OnePinLess(pins: map<string, Pairing>, todo: set<string>, user: string, pin: string)
    requires pin in pins && pin in todo
    ensures PinsLeft(pins, todo - {pin}, user) ==
            PinsLeft(pins, todo, user) - if pins[pin].user == user then {pin} else {}
  {
  }

  lemma RemoveTwice(codes: map<string, Pairing>, a: set<string>, b: set<string>)
    ensures codes - a - b == codes - (a + b)
  {
  }

  lemma OneMorePin(pins: map<string, Pairing>, among: set<string>, user: string, pin: string)
    requires pin in pins
    ensures SecretsAmong(pins, among + {pin}, user) ==
            SecretsAmong(pins, among, user) + if pins[pin].user == user then {pins[pin].secret} else {}
  {
  }

  lemma CancelStep(pins: map<string, Pairing>, codes: map<string, Pairing>, todo: set<string>, done: set<string>,
                   user: string, pin: string)
    requires pin in pins && pin in todo
    ensures
      if pins[pin].user == user then
        && PinsLeft(pins, todo - {pin}, user) == PinsLeft(pins, todo, user) - {pin}
        && codes - SecretsAmong(pins, done + {pin}, user) == codes - SecretsAmong(pins, done, user) - {pins[pin].secret}
      else
        && PinsLeft(pins, todo - {pin}, user) == PinsLeft(pins, todo, user)
        && codes - SecretsAmong(pins, done + {pin}, user) == codes - SecretsAmong(pins, done, user)
  {
    OneMorePin(pins, done, user, pin);
    OnePinLess(pins, todo, user, pin);
    RemoveTwice(codes, SecretsAmong(pins, done, user), if pins[pin].user == user then {pins[pin].secret} else {});
    assert PinsLeft(pins, todo, user) - {} == PinsLeft(pins, todo, user);
  }

  function SecretsByPin(t: Table, user: string): set<string> {
    SecretsAmong(t.pins, t.pins.Keys, user)
  }

  function Cancelled(t: Table, user: string): Table {
    Table(PinsLeft(t.pins, {}, user), t.codes - SecretsByPin(t, user))
  }

  function SecretsOf(t: Table, users: set<string>): set<string> {
    set pin | pin in t.pins && t.pins[pin].user in users :: t.pins[pin].secret
  }

  /** Cancelling for several users at once. */
  function CancelledAll(t: Table, users: set<string>): Table {
    Table(map pin | pin in t.pins && t.pins[pin].user !in users :: t.pins[pin], t.codes - SecretsOf(t, users))
  }

  lemma SecretsOneMore(t: Table, users: set<string>, user: string)
    ensures SecretsOf(t, users + {user}) == SecretsOf(t, users) + SecretsByPin(CancelledAll(t, users), user)
  {
    var u := CancelledAll(t, users);
    forall s | s in SecretsOf(t, users + {user})
      ensures s in SecretsOf(t, users) || s in SecretsByPin(u, user)
    {
      var pin :| pin in t.pins && t.pins[pin].user in users + {user} && t.pins[pin].secret == s;
      if t.pins[pin].user !in users {
        assert pin in u.pins.Keys && u.pins[pin].user == user;
      }
    }
  }

  lemma CancelOneMore(t: Table, users: set<string>, user: string)
    ensures Cancelled(CancelledAll(t, users), user) == CancelledAll(t, users + {user})
  {
    var u := CancelledAll(t, users);
    assert Cancelled(u, user).pins == CancelledAll(t, users + {user}).pins;
    SecretsOneMore(t, users, user);
    RemoveTwice(t.codes, SecretsOf(t, users), SecretsByPin(u, user));
  }

  lemma CancelNone(t: Table)
    ensures CancelledAll(t, {}) == t
  {
    assert CancelledAll(t, {}).pins == t.pins && CancelledAll(t, {}).codes == t.codes;
  }

  lemma CancelOneUser(t: Table, user: string)
    ensures Cancelled(t, user) == CancelledAll(t, {user})
  {
    CancelNone(t);
    CancelOneMore(t, {}, user);
    assert {} + {user} == {user};
  }

  predicate Redeemable(p: Pairing, now: int) {
    now <= p.expiresAt
  }

  /**
   * Every PIN leads to a pairing its secret leads to as well, and every secret that can still be
   * redeemed to one its PIN leads to. Expired secrets are never swept.
   */
  predicate Paired(t: Table, now: int) {
    && (forall pin :: pin in t.pins ==> t.pins[pin].pin == pin && t.pins[pin].secret in t.codes
                                        && t.codes[t.pins[pin].secret] == t.pins[pin])
    && (forall s :: s in t.codes ==>
          && t.codes[s].secret == s
          && (Redeemable(t.codes[s], now) ==> t.codes[s].pin in t.pins && t.pins[t.codes[s].pin] == t.codes[s]))
  }

  lemma LaterStaysPaired(t: Table, before: int, now: int)
    requires Paired(t, before) && before <= now
    ensures Paired(t, now)
  {
  }

  /** A user has a pairing that can still be redeemed, by PIN or by secret. */
  predicate Outstanding(t: Table, user: string, now: int) {
    || (exists pin :: pin in t.pins && t.pins[pin].user == user && Redeemable(t.pins[pin], now))
    || (exists s :: s in t.codes && t.codes[s].user == user && Redeemable(t.codes[s], now))
  }

  /** A new pairing keeps the maps in step exactly when nobody holds its PIN who can still use it. */
  lemma CreationKeepsPairs(t: Table, p: Pairing, now: int)
    requires Paired(t, now) && p.secret !in t.codes
    ensures Paired(Created(t, p), now) <==> (p.pin in t.pins ==> !Redeemable(t.pins[p.pin], now))
  {
    var u := Created(t, p);
    if p.pin in t.pins {
      var lost := t.pins[p.pin].secret;
      assert u.codes[lost] == t.codes[lost];
      assert u.pins[u.codes[lost].pin] == p;
    }
  }

  lemma RedemptionKeepsPairs(t: Table, code: string, now: int)
    requires Paired(t, now)
    ensures Paired(Redemption(t, code, now).0, now)
  {
  }

  /** A pairing just made can be redeemed by its PIN and by its secret, until it expires, and then by neither. */
  lemma LivePairingRedeems(t: Table, p: Pairing, code: string, now: int)
    requires |p.pin| == 6 && |p.secret| != 6 && (code == p.pin || code == p.secret)
    ensures
      var (left, r) := Redemption(Created(t, p), code, now);
      && (r == Some(p) <==> now <= p.expiresAt)
      && (r.Some? ==>
            forall later :: Redemption(left, p.pin, later).1.None? && Redemption(left, p.secret, later).1.None?)
      && (r.None? ==> left == Created(t, p))
  {
  }

  /**
   * Cancelling reaches the secrets through the PINs: a secret of the user's survives exactly
   * when no PIN leads to it any more.
   */
  lemma CancelMissesExactly(t: Table, user: string, s: string)
    requires s in t.codes && t.codes[s].user == user
    ensures s in Cancelled(t, user).codes <==>
            forall pin :: pin in t.pins && t.pins[pin].user == user ==> t.pins[pin].secret != s
  {
  }

  /** While the maps are in step, nothing of those users' can be redeemed after a cancel, and all else can. */
  lemma CancelAllIsComplete(t: Table, users: set<string>, now: int)
    requires Paired(t, now)
    ensures Paired(CancelledAll(t, users), now)
    ensures forall user :: user in users ==> !Outstanding(CancelledAll(t, users), user, now)
    ensures forall s :: s in t.codes && t.codes[s].user !in users ==> s in CancelledAll(t, users).codes
    ensures forall pin :: pin in CancelledAll(t, users).pins <==> pin in t.pins && t.pins[pin].user !in users
  {
    var u := CancelledAll(t, users);
    forall s | s in t.codes && t.codes[s].user in users && Redeemable(t.codes[s], now)
      ensures s !in u.codes
    {
      assert t.codes[s].pin in t.pins;
    }
    forall s | s in t.codes && t.codes[s].user !in users
      ensures s in u.codes
    {
      assert forall pin :: pin in t.pins && t.pins[pin].secret == s ==> t.codes[s] == t.pins[pin];
    }
  }

  /** Two pairings that draw one PIN, for two users or for one: a cancel leaves the first secret redeemable. */
  lemma SharedPinOutlivesCancel(first: Pairing, second: Pairing, now: int)
    requires first.pin == second.pin && first.secret != second.secret
    requires |first.secret| != 6 && now <= first.expiresAt
    ensures
      var t := Cancelled(Created(Created(EMPTY, first), second), first.user);
      Redemption(t, first.secret, now).1 == Some(first)
  {
  }

  class DeviceStore {
    var pins: map<string, Pairing>
    var codes: map<string, Pairing>
    var devices: map<string, string>   // device -> user

    function State(): Table
      reads this
    {
      Table(pins, codes)
    }

    /** A restart: registered devices are read back, pairings are not. */
    constructor (devices: map<string, string>)
      ensures State() == EMPTY && this.devices == devices
    {
      pins, codes := map[], map[];
      this.devices := devices;
    }

    method CreatePairingSession(user: string, origin: Identity, pin: string, secret: string, now: int)
      returns (p: Pairing)
      modifies this`pins, this`codes
      ensures p == Pairing(pin, user, secret, now + PAIRING_LIFETIME, origin)
      ensures State() == Created(old(State()), p)
      ensures pins == old(pins)[pin := p] && codes == old(codes)[secret := p]
    {
      p := Pairing(pin, user, secret, now + PAIRING_LIFETIME, origin);
      pins := pins[pin := p];
      codes := codes[secret := p];
    }

    method RedeemPairing(code: string, device: string, now: int, saves: bool) returns (r: Option<Pairing>)
      requires device !in devices
      modifies this
      ensures
        var (t, p) := Redemption(old(State()), code, now);
        && State() == t
        && r == (if saves then p else None)
        && devices == if r.Some? then old(devices)[device := r.value.user] else old(devices)
      ensures r.Some? ==>
        && (if |code| == 6 then code in old(pins) && r.value == old(pins)[code]
            else code in old(codes) && r.value == old(codes)[code])
        && now <= r.value.expiresAt
        && pins == old(pins) - {r.value.pin} && codes == old(codes) - {r.value.secret}
      ensures r.None? && saves ==>
        && pins == old(pins) && codes == old(codes)
        && (|code| == 6 && code in pins ==> now > pins[code].expiresAt)
        && (|code| != 6 && code in codes ==> now > codes[code].expiresAt)
    {
      var found := if |code| == 6 then (if code in pins then Some(pins[code]) else None)
                   else if code in codes then Some(codes[code]) else None;
      if found.None? || now > found.value.expiresAt {
        return None;
      }
      var p := found.value;
      pins := pins - {p.pin};
      codes := codes - {p.secret};
      devices := devices[device := p.user];
      if !saves {
        devices := devices - {device};
        assert devices == old(devices);
        return None;
      }
      return found;
    }

    method CancelUserPairings(user: string)
      modifies this`pins, this`codes
      ensures State() == Cancelled(old(State()), user)
      ensures forall pin :: pin in pins <==> pin in old(pins) && old(pins)[pin].user != user
      ensures forall pin :: pin in pins ==> pins[pin] == old(pins)[pin]
      ensures forall s :: s in codes ==> s in old(codes) && codes[s] == old(codes)[s]
    {
      ghost var pins0, codes0 := pins, codes;
      var todo := pins.Keys;
      ghost var done: set<string> := {};
      while todo != {}
        invariant todo <= pins0.Keys && done == pins0.Keys - todo
        invariant pins == PinsLeft(pins0, todo, user)
        invariant codes == codes0 - SecretsAmong(pins0, done, user)
        decreases |todo|
      {
        var pin :| pin in todo;
        var p := pins[pin];
        CancelStep(pins0, codes0, todo, done, user, pin);
        todo := todo - {pin};
        done := done + {pin};
        if p.user == user {
          pins := pins - {pin};
          codes := codes - {p.secret};
        }
      }
      assert done == pins0.Keys;
    }

    method Revoke(device: string) returns (found: bool)
      modifies this`devices
      ensures found == (device in old(devices)) && devices == old(devices) - {device}
    {
      found := device in devices;
      devices := devices - {device};
    }
  }
}
