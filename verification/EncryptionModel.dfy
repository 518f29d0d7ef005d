/**
 Identity-provider tokens at rest across boots: the boot guards, the plaintext sweep, the wrapped
 provider and the writes it leads to, as a state machine over one database and one process.

 A column is empty, plaintext, or a ciphertext that remembers the key it was made with.  The key
 fingerprint is a parameter.
 */
module EncryptionModel {
  import opened Common

  datatype Column = Null | Plain(text: string) | Enc(key: string, text: string)

  datatype User = User(access: Column, refresh: Column)

  type Users = map<string, User>

  /** A ciphertext set aside when its row is emptied. */
  datatype Stashed = Stashed(user: string, isRefresh: bool, token: Column)

  /** `issued` holds what the provider has returned and the caller has not yet stored. */
  datatype Process = Down | Running(key: Option<string>, persisted: bool, issued: set<Column>)

  datatype State = State(users: Users, fingerprint: Option<string>, stash: set<Stashed>, process: Process)

  const FRESH: State := State(map[], None, {}, Down)

  // ---------------------------------------------------------------- boot

  predicate RowEncrypted(u: User) {
    u.access.Enc? || u.refresh.Enc?
  }

  predicate HasEncrypted(users: Users) {
    exists id :: id in users && RowEncrypted(users[id])
  }

  function EncryptedCount(users: Users): nat {
    |set id | id in users && RowEncrypted(users[id])|
  }

  function Encrypted(c: Column, key: string): Column {
    if c.Plain? then Enc(key, c.text) else c
  }

  function EncryptedRow(u: User, key: string): User {
    User(Encrypted(u.access, key), Encrypted(u.refresh, key))
  }

  predicate HasPlain(users: Users) {
    exists id :: id in users && (users[id].access.Plain? || users[id].refresh.Plain?)
  }

  /** Encrypt every plaintext token; the fingerprint is stored along with the first of them. */
  function Swept(s: State, key: string, fp: string -> string): State {
    if !HasPlain(s.users) then s
    else
      s.(users := map id | id in s.users :: EncryptedRow(s.users[id], key),
         fingerprint := if s.fingerprint.Some? then s.fingerprint else Some(fp(key)))
  }

  /** Empty every row that holds a ciphertext, setting the ciphertexts aside. */
  function TokensLost(s: State): State {
    s.(users := map id | id in s.users :: if RowEncrypted(s.users[id]) then User(Null, Null) else s.users[id],
       stash := s.stash
                + (set id | id in s.users && s.users[id].access.Enc? :: Stashed(id, false, s.users[id].access))
                + (set id | id in s.users && s.users[id].refresh.Enc? :: Stashed(id, true, s.users[id].refresh)))
  }

  /** What the operator sets in the environment. */
  datatype Env = Env(key: Option<string>, allowTokenLoss: bool, confirmedRows: Option<nat>, allowRotation: bool)

  datatype Branch = RefuseNoKey | RefuseConfirm | LoseTokens | RefuseKey | Rotate | AdoptKey | UseKey | NoKey

  /** Which branch of the guards a boot takes. */
  function Guard(s: State, env: Env, fp: string -> string): Branch {
    if HasEncrypted(s.users) && env.key == None then
      if !env.allowTokenLoss then RefuseNoKey
      else if env.confirmedRows != Some(EncryptedCount(s.users)) then RefuseConfirm
      else LoseTokens
    else if env.key.Some? && s.fingerprint.Some? && s.fingerprint.value != fp(env.key.value) then
      if !env.allowRotation then RefuseKey else Rotate
    else if HasEncrypted(s.users) && env.key.Some? && s.fingerprint == None then AdoptKey
    else if env.key.Some? then UseKey
    else NoKey
  }

  predicate Refuses(b: Branch) {
    b.RefuseNoKey? || b.RefuseConfirm? || b.RefuseKey?
  }

  /** A boot ends whatever process ran before; a refused one leaves the database alone. */
  function Boot(s: State, env: Env, fp: string -> string): State {
    var b := Guard(s, env, fp);
    match b
    case RefuseNoKey => s.(process := Down)
    case RefuseConfirm => s.(process := Down)
    case RefuseKey => s.(process := Down)
    case LoseTokens => TokensLost(s).(process := Running(None, false, {}))
    case Rotate => Swept(s.(fingerprint := None), env.key.value, fp).(process := Running(env.key, false, {}))
    case AdoptKey =>
      Swept(s.(fingerprint := Some(fp(env.key.value))), env.key.value, fp).(process := Running(env.key, true, {}))
    case UseKey => Swept(s, env.key.value, fp).(process := Running(env.key, s.fingerprint.Some?, {}))
    case NoKey => s.(process := Running(None, false, {}))
  }

  // ---------------------------------------------------------------- the running process

  /** The wrapped provider's encrypt: the first keyed call persists the fingerprint before it returns. */
  function EncryptCall(s: State, text: string, fp: string -> string): State {
    if s.process.Down? then s
    else if s.process.key == None then s.(process := s.process.(issued := s.process.issued + {Plain(text)}))
    else
      var key := s.process.key.value;
      s.(fingerprint := if s.process.persisted || s.fingerprint.Some? then s.fingerprint else Some(fp(key)),
         process := s.process.(persisted := true, issued := s.process.issued + {Enc(key, text)}))
  }

  /** Store an issued token, or clear a column. */
  function Save(s: State, id: string, isRefresh: bool, c: Column): State {
    if s.process.Down? || !(c == Null || c in s.process.issued) then s
    else
      var u := if id in s.users then s.users[id] else User(Null, Null);
      s.(users := s.users[id := if isRefresh then u.(refresh := c) else u.(access := c)])
  }

  datatype Op =
    | BootWith(env: Env)
    | EncryptText(text: string)
    | SaveToken(user: string, isRefresh: bool, token: Column)
    | Crash

  function Step(s: State, op: Op, fp: string -> string): State {
    match op
    case BootWith(env) => Boot(s, env, fp)
    case EncryptText(text) => EncryptCall(s, text, fp)
    case SaveToken(id, r, c) => Save(s, id, r, c)
    case Crash => s.(process := Down)
  }

  function Run(s: State, ops: seq<Op>, fp: string -> string): State
    decreases |ops|
  {
    if ops == [] then s else Run(Step(s, ops[0], fp), ops[1..], fp)
  }

  // ---------------------------------------------------------------- the invariant

  ghost predicate InjectiveFp(fp: string -> string) {
    forall a, b :: fp(a) == fp(b) ==> a == b
  }

  /** A ciphertext is only ever seen under the stored fingerprint. */
  ghost predicate Covered(c: Column, fingerprint: Option<string>, fp: string -> string) {
    c.Enc? ==> fingerprint == Some(fp(c.key))
  }

  ghost predicate UsersCovered(s: State, fp: string -> string) {
    forall id :: id in s.users ==>
      Covered(s.users[id].access, s.fingerprint, fp) && Covered(s.users[id].refresh, s.fingerprint, fp)
  }

  ghost predicate ProcessSound(s: State, fp: string -> string) {
    s.process.Running? ==>
      && (forall c :: c in s.process.issued ==> Covered(c, s.fingerprint, fp))
      && (s.process.key == None ==> forall c :: c in s.process.issued ==> c.Plain?)
      && (s.process.key.Some? ==> s.fingerprint == None || s.fingerprint == Some(fp(s.process.key.value)))
      && (s.process.key.Some? && s.process.persisted ==> s.fingerprint.Some?)
  }

  ghost predicate Sound(s: State, fp: string -> string) {
    UsersCovered(s, fp) && ProcessSound(s, fp)
  }

  lemma CiphertextNeedsFingerprint(s: State, fp: string -> string)
    requires UsersCovered(s, fp) && HasEncrypted(s.users)
    ensures s.fingerprint.Some?
  {
    var id :| id in s.users && RowEncrypted(s.users[id]);
  }

  lemma SweptSound(s: State, key: string, fp: string -> string)
    requires UsersCovered(s, fp) && (s.fingerprint == None || s.fingerprint == Some(fp(key)))
    ensures UsersCovered(Swept(s, key, fp), fp)
    ensures Swept(s, key, fp).fingerprint == None || Swept(s, key, fp).fingerprint == Some(fp(key))
    ensures s.fingerprint.Some? ==> Swept(s, key, fp).fingerprint == s.fingerprint
  {
    if s.fingerprint == None && HasEncrypted(s.users) {
      CiphertextNeedsFingerprint(s, fp);
    }
    var t := Swept(s, key, fp);
    forall id | id in t.users
      ensures Covered(t.users[id].access, t.fingerprint, fp) && Covered(t.users[id].refresh, t.fingerprint, fp)
    {
      assert id in s.users;
      assert RowEncrypted(s.users[id]) ==> s.fingerprint.Some?;
    }
  }

  /** On a sound database the branch that adopts an unknown key's ciphertexts is never taken. */
  lemma NeverAdopts(s: State, env: Env, fp: string -> string)
    requires UsersCovered(s, fp)
    ensures !Guard(s, env, fp).AdoptKey?
  {
    if HasEncrypted(s.users) {
      CiphertextNeedsFingerprint(s, fp);
    }
  }

  lemma BootSound(s: State, env: Env, fp: string -> string)
    requires Sound(s, fp) && !env.allowRotation
    ensures Sound(Boot(s, env, fp), fp)
  {
    NeverAdopts(s, env, fp);
    if Guard(s, env, fp).UseKey? {
      SweptSound(s, env.key.value, fp);
    }
  }

  lemma StepSound(s: State, op: Op, fp: string -> string)
    requires Sound(s, fp) && (op.BootWith? ==> !op.env.allowRotation)
    ensures Sound(Step(s, op, fp), fp)
  {
    match op
    case BootWith(env) => BootSound(s, env, fp);
    case EncryptText(text) =>
      if s.fingerprint == None {
        assert forall id :: id in s.users ==> !RowEncrypted(s.users[id]);
        assert forall c :: s.process.Running? && c in s.process.issued ==> !c.Enc?;
      }
    case SaveToken(_, _, _) =>
    case Crash =>
  }

  ghost predicate NoRotation(ops: seq<Op>) {
    forall k :: 0 <= k < |ops| && ops[k].BootWith? ==> !ops[k].env.allowRotation
  }

  lemma {:induction false} RunSound(s: State, ops: seq<Op>, fp: string -> string)
    requires Sound(s, fp) && NoRotation(ops)
    ensures Sound(Run(s, ops, fp), fp)
    decreases |ops|
  {
    if ops != [] {
      StepSound(s, ops[0], fp);
      RunSound(Step(s, ops[0], fp), ops[1..], fp);
    }
  }

  /**
   From a fresh database, over any sequence of boots, encryptions, stored tokens, crashes and
   confirmed token losses, and without the rotation override: wherever a ciphertext is stored the
   fingerprint is stored too and is its key's; and no boot ever adopts a key for rows it did not
   write.
   */
  lemma CiphertextsMatchFingerprint(ops: seq<Op>, fp: string -> string, id: string)
    requires NoRotation(ops) && id in Run(FRESH, ops, fp).users
    ensures var s := Run(FRESH, ops, fp);
            && (s.users[id].access.Enc? ==> s.fingerprint == Some(fp(s.users[id].access.key)))
            && (s.users[id].refresh.Enc? ==> s.fingerprint == Some(fp(s.users[id].refresh.key)))
    ensures forall env :: !Guard(Run(FRESH, ops, fp), env, fp).AdoptKey?
  {
    RunSound(FRESH, ops, fp);
    forall env ensures !Guard(Run(FRESH, ops, fp), env, fp).AdoptKey? {
      NeverAdopts(Run(FRESH, ops, fp), env, fp);
    }
  }

  /** After a keyed boot that goes through, every token is absent or encrypted under that very key. */
  lemma KeyedBootEncryptsEverything(ops: seq<Op>, env: Env, fp: string -> string, id: string)
    requires InjectiveFp(fp) && NoRotation(ops) && !env.allowRotation && env.key.Some?
    requires var s := Run(FRESH, ops, fp); id in s.users && !Refuses(Guard(s, env, fp))
    ensures var t := Boot(Run(FRESH, ops, fp), env, fp);
            && id in t.users
            && (t.users[id].access.Null? || (t.users[id].access.Enc? && t.users[id].access.key == env.key.value))
            && (t.users[id].refresh.Null? || (t.users[id].refresh.Enc? && t.users[id].refresh.key == env.key.value))
  {
    RunSound(FRESH, ops, fp);
    var s := Run(FRESH, ops, fp);
    NeverAdopts(s, env, fp);
    var u := s.users[id];
    assert u.access.Enc? || u.refresh.Enc? ==> s.fingerprint == Some(fp(env.key.value)) by {
      if u.access.Enc? || u.refresh.Enc? {
        CiphertextNeedsFingerprint(s, fp);
      }
    }
  }

  /** The rotation override keeps the invariant exactly when no ciphertext is stored. */
  lemma RotationSoundIffNoCiphertext(s: State, env: Env, fp: string -> string)
    requires Sound(s, fp) && Guard(s, env, fp).Rotate?
    ensures Sound(Boot(s, env, fp), fp) <==> !HasEncrypted(s.users)
  {
    var t := Boot(s, env, fp);
    if HasEncrypted(s.users) {
      var id :| id in s.users && RowEncrypted(s.users[id]);
      assert id in t.users;
    } else {
      assert forall id :: id in s.users ==> !RowEncrypted(s.users[id]);
      SweptSound(s.(fingerprint := None), env.key.value, fp);
    }
  }

  /**
   A confirmed token loss keeps every ciphertext in the stash.  A plaintext token is lost with it
   exactly when the same row holds a ciphertext in its other column.
   */
  lemma TokenLossKeepsCiphertexts(s: State, id: string)
    requires id in s.users
    ensures var t := TokensLost(s);
            && t.users.Keys == s.users.Keys && s.stash <= t.stash && !HasEncrypted(t.users)
            && (s.users[id].access.Enc? ==> Stashed(id, false, s.users[id].access) in t.stash)
            && (s.users[id].refresh.Enc? ==> Stashed(id, true, s.users[id].refresh) in t.stash)
            && (s.users[id].access.Plain? ==> (t.users[id].access != s.users[id].access <==> s.users[id].refresh.Enc?))
            && (s.users[id].refresh.Plain? ==>
                  (t.users[id].refresh != s.users[id].refresh <==> s.users[id].access.Enc?))
  {
  }

  // ---------------------------------------------------------------- when a boot goes through, and what it does

  /** The users that hold a ciphertext. */
  ghost function Holders(users: Users): set<string> {
    set id | id in users && (users[id].access.Enc? || users[id].refresh.Enc?)
  }

  /** The tables of `t` are those of `s`. */
  ghost predicate SameTables(s: State, t: State) {
    t.users == s.users && t.fingerprint == s.fingerprint && t.stash == s.stash
  }

  /** Exactly the rows with a ciphertext are emptied, and exactly their ciphertexts set aside. */
  ghost predicate TokensGone(s: State, t: State) {
    && t.fingerprint == s.fingerprint && t.users.Keys == s.users.Keys
    && (forall id :: id in s.users ==> t.users[id] == if id in Holders(s.users) then User(Null, Null) else s.users[id])
    && (forall x :: x in t.stash <==>
          || x in s.stash
          || (x.user in s.users && x.token.Enc?
              && x.token == if x.isRefresh then s.users[x.user].refresh else s.users[x.user].access))
  }

  /** Exactly the plaintext tokens are encrypted, under this key. */
  ghost predicate PlaintextGone(s: State, t: State, key: string) {
    && t.stash == s.stash && t.users.Keys == s.users.Keys
    && forall id :: id in s.users ==>
         && TokenSwept(s.users[id].access, t.users[id].access, key)
         && TokenSwept(s.users[id].refresh, t.users[id].refresh, key)
  }

  predicate TokenSwept(before: Column, after: Column, key: string) {
    after == if before.Plain? then Enc(key, before.text) else before
  }

  lemma TokensLostMeans(s: State)
    ensures TokensGone(s, TokensLost(s))
  {
  }

  lemma SweptMeans(s: State, key: string, fp: string -> string)
    ensures PlaintextGone(s, Swept(s, key, fp), key)
    ensures Swept(s, key, fp).fingerprint ==
            if s.fingerprint == None && HasPlain(s.users) then Some(fp(key)) else s.fingerprint
  {
  }

  /** The operator has confirmed the loss of exactly as many rows as hold a ciphertext. */
  ghost predicate LossConfirmed(users: Users, env: Env) {
    env.allowTokenLoss && env.confirmedRows == Some(|Holders(users)|)
  }

  /**
   A boot without a key goes through if and only if no ciphertext is stored or its loss is confirmed
   with the right number of rows.  Refused, it changes no table; confirmed, it empties exactly the
   rows with a ciphertext; else it changes nothing.
   */
  lemma KeylessBoot(s: State, env: Env, fp: string -> string)
    requires env.key == None
    ensures var t := Boot(s, env, fp);
            && (t.process.Running? <==> Holders(s.users) == {} || LossConfirmed(s.users, env))
            && (t.process.Running? ==> t.process == Running(None, false, {}))
            && (Holders(s.users) == {} || !t.process.Running? ==> SameTables(s, t))
            && (Holders(s.users) != {} && t.process.Running? ==> TokensGone(s, t))
  {
    HoldersAre(s.users);
    TokensLostMeans(s);
  }

  lemma HoldersAre(users: Users)
    ensures HasEncrypted(users) <==> Holders(users) != {}
    ensures EncryptedCount(users) == |Holders(users)|
  {
    if HasEncrypted(users) {
      var id :| id in users && RowEncrypted(users[id]);
      assert id in Holders(users);
    }
    assert Holders(users) == set id | id in users && RowEncrypted(users[id]);
  }

  /**
   A boot with a key is refused if and only if another key's fingerprint is stored and rotation is not
   allowed.  Refused, it changes no table; else it encrypts exactly the plaintext tokens.  The
   fingerprint ends up as this key's whenever a ciphertext is stored or one was just made.
   */
  lemma KeyedBoot(s: State, env: Env, fp: string -> string)
    requires env.key.Some?
    ensures var t, k := Boot(s, env, fp), env.key.value;
            var other := s.fingerprint.Some? && s.fingerprint.value != fp(k);
            && (t.process.Running? <==> !other || env.allowRotation)
            && (!t.process.Running? ==> SameTables(s, t))
            && (t.process.Running? ==>
                  && PlaintextGone(s, t, k)
                  && t.process.key == env.key && t.process.issued == {}
                  && t.process.persisted == (!other && (s.fingerprint.Some? || Holders(s.users) != {}))
                  && t.fingerprint == (if t.process.persisted || HasPlain(s.users) then Some(fp(k)) else None))
  {
    HoldersAre(s.users);
    SweptMeans(s, env.key.value, fp);
    SweptMeans(s.(fingerprint := None), env.key.value, fp);
    SweptMeans(s.(fingerprint := Some(fp(env.key.value))), env.key.value, fp);
  }

  // ---------------------------------------------------------------- what happens to one ciphertext

  function Cell(s: State, id: string, isRefresh: bool): Column {
    if id !in s.users then Null else if isRefresh then s.users[id].refresh else s.users[id].access
  }

  /** The running process stores another token in this column, or clears it. */
  ghost predicate Overwrites(s: State, op: Op, id: string, isRefresh: bool) {
    && op.SaveToken? && op.user == id && op.isRefresh == isRefresh && op.token != Cell(s, id, isRefresh)
    && s.process.Running? && (op.token == Null || op.token in s.process.issued)
  }

  /** A boot without a key whose operator has confirmed the loss. */
  ghost predicate Loses(s: State, op: Op) {
    op.BootWith? && op.env.key == None && LossConfirmed(s.users, op.env)
  }

  lemma StoredMeans(s: State, id: string, isRefresh: bool, c: Column)
    requires s.process.Running? && (c == Null || c in s.process.issued)
    ensures var t := Save(s, id, isRefresh, c);
            && Cell(t, id, isRefresh) == c
            && (forall i, r :: i != id || r != isRefresh ==> Cell(t, i, r) == Cell(s, i, r))
            && t.stash == s.stash && t.fingerprint == s.fingerprint && t.process == s.process
  {
  }

  /** A step changes a stored ciphertext if and only if it overwrites it or is a confirmed loss. */
  lemma CiphertextChangesIff(s: State, op: Op, fp: string -> string, id: string, isRefresh: bool)
    requires Cell(s, id, isRefresh).Enc?
    ensures Cell(Step(s, op, fp), id, isRefresh) != Cell(s, id, isRefresh) <==>
            Overwrites(s, op, id, isRefresh) || Loses(s, op)
  {
    assert id in Holders(s.users);
    match op
    case BootWith(env) =>
      if env.key == None {
        KeylessBoot(s, env, fp);
      } else {
        KeyedBoot(s, env, fp);
      }
    case EncryptText(_) =>
    case SaveToken(user, r, c) =>
      if s.process.Running? && (c == Null || c in s.process.issued) {
        StoredMeans(s, user, r, c);
      }
    case Crash =>
  }

  /** Over any run a stored ciphertext stays until it is overwritten or its loss is confirmed at a boot. */
  lemma {:induction false} CiphertextStays(s: State, ops: seq<Op>, fp: string -> string, id: string, isRefresh: bool)
    requires Cell(s, id, isRefresh).Enc?
    requires forall k :: 0 <= k < |ops| ==>
               var t := Run(s, ops[..k], fp); !Overwrites(t, ops[k], id, isRefresh) && !Loses(t, ops[k])
    ensures Cell(Run(s, ops, fp), id, isRefresh) == Cell(s, id, isRefresh)
    decreases |ops|
  {
    if ops != [] {
      assert ops[..0] == [] && Run(s, ops[..0], fp) == s;
      CiphertextChangesIff(s, ops[0], fp, id, isRefresh);
      var s', rest := Step(s, ops[0], fp), ops[1..];
      forall k | 0 <= k < |rest|
        ensures !Overwrites(Run(s', rest[..k], fp), rest[k], id, isRefresh) && !Loses(Run(s', rest[..k], fp), rest[k])
      {
        assert ops[..k + 1][1..] == rest[..k];
        assert Run(s, ops[..k + 1], fp) == Run(s', rest[..k], fp);
      }
      CiphertextStays(s', rest, fp, id, isRefresh);
    }
  }

  /** The provider returns a ciphertext under its key, after its fingerprint is stored; without a key, the text. */
  lemma EncryptedMeans(s: State, text: string, fp: string -> string)
    requires s.process.Running?
    ensures var t := EncryptCall(s, text, fp);
            && t.users == s.users && t.stash == s.stash && t.process.Running? && t.process.key == s.process.key
            && t.process.issued == s.process.issued
               + {if s.process.key.Some? then Enc(s.process.key.value, text) else Plain(text)}
            && (s.process.key == None ==> t.fingerprint == s.fingerprint && t.process.persisted == s.process.persisted)
            && (s.process.key.Some? ==>
                  && t.process.persisted
                  && t.fingerprint == (if s.process.persisted || s.fingerprint.Some? then s.fingerprint
                                       else Some(fp(s.process.key.value))))
  {
  }
}
