/**
 The boot guards, the plaintext sweep and the wrapped provider as the source runs them: row by row
 over the user table, with a `persisted` flag that lives as long as the process.  Each is proved to
 do what `EncryptionModel` says.
 */
module BootEncryption {
  import opened Common
  import opened EncryptionModel

  class Database {
    var users: Users
    var fingerprint: Option<string>
    var stash: set<Stashed>

    constructor ()
      ensures users == map[] && fingerprint == None && stash == {}
    {
      users, fingerprint, stash := map[], None, {};
    }

    /** The database together with a process. */
    ghost function With(p: Process): State
      reads this
    {
      State(users, fingerprint, stash, p)
    }

    method MigratePlaintextIdpTokens(key: string, fp: string -> string)
      modifies this`users, this`fingerprint
      ensures forall p :: With(p) == Swept(old(With(p)), key, fp)
      ensures PlaintextGone(old(With(Down)), With(Down), key)
      ensures fingerprint ==
              if old(fingerprint) == None && old(HasPlain(users)) then Some(fp(key)) else old(fingerprint)
    {
      SweptMeans(With(Down), key, fp);
      var rows := set id | id in users && (users[id].access.Plain? || users[id].refresh.Plain?);
      assert rows != {} <==> HasPlain(users) by {
        if HasPlain(users) {
          var id :| id in users && (users[id].access.Plain? || users[id].refresh.Plain?);
          assert id in rows;
        }
      }
      if rows == {} {
        return;
      }
      EncryptRows(rows, key);
      if fingerprint == None {
        fingerprint := Some(fp(key));
      }
      assert users == map id | id in old(users) :: EncryptedRow(old(users)[id], key);
    }

    /** The loop over the selected rows. */
    method EncryptRows(rows: set<string>, key: string)
      requires rows <= users.Keys
      modifies this`users
      ensures users.Keys == old(users).Keys
      ensures forall id :: id in users ==>
                users[id] == if id in rows then EncryptedRow(old(users)[id], key) else old(users)[id]
    {
      var todo := rows;
      while todo != {}
        invariant todo <= rows && users.Keys == old(users).Keys
        invariant forall id :: id in users ==>
                    users[id] == if id in rows && id !in todo then EncryptedRow(old(users)[id], key) else old(users)[id]
        decreases |todo|
      {
        var id :| id in todo;
        var row := users[id];
        if row.access.Plain? {
          users := users[id := users[id].(access := Enc(key, row.access.text))];
        }
        if row.refresh.Plain? {
          users := users[id := users[id].(refresh := Enc(key, row.refresh.text))];
        }
        todo := todo - {id};
      }
    }

    /** Guard 1's destructive branch. */
    method InvalidateTokens()
      modifies this`users, this`stash
      ensures forall p :: With(p) == TokensLost(old(With(p)))
      ensures TokensGone(old(With(Down)), With(Down))
    {
      TokensLostMeans(With(Down));
      var rows := set id | id in users && RowEncrypted(users[id]);
      ghost var was := With(Down);
      StashAndNullify(rows);
      LostAll(was, users, stash, rows);
    }

    /** The loop over the selected rows. */
    method StashAndNullify(rows: set<string>)
      requires rows <= users.Keys
      modifies this`users, this`stash
      ensures LostUpTo(old(With(Down)), users, stash, rows)
    {
      ghost var was := With(Down);
      var todo := rows;
      while todo != {}
        invariant todo <= rows && LostUpTo(was, users, stash, rows - todo)
        decreases |todo|
      {
        var id :| id in todo;
        var row := users[id];
        LostNext(was, users, stash, rows - todo, id);
        if row.access.Enc? {
          stash := stash + {Stashed(id, false, row.access)};
        }
        if row.refresh.Enc? {
          stash := stash + {Stashed(id, true, row.refresh)};
        }
        users := users[id := User(Null, Null)];
        assert rows - (todo - {id}) == rows - todo + {id};
        todo := todo - {id};
      }
      assert rows - todo == rows;
    }
  }

  function Tokens(id: string, row: User): set<Stashed> {
    (if row.access.Enc? then {Stashed(id, false, row.access)} else {})
    + if row.refresh.Enc? then {Stashed(id, true, row.refresh)} else {}
  }

  /** The rows in `done` are emptied and their ciphertexts stashed; nothing else has changed. */
  ghost predicate LostUpTo(was: State, users: Users, stash: set<Stashed>, done: set<string>) {
    && users.Keys == was.users.Keys
    && (forall id :: id in users ==> users[id] == if id in done then User(Null, Null) else was.users[id])
    && (forall x :: x in stash <==>
          x in was.stash || (x.user in done && x.user in was.users && x in Tokens(x.user, was.users[x.user])))
  }

  lemma LostNext(was: State, users: Users, stash: set<Stashed>, done: set<string>, id: string)
    requires LostUpTo(was, users, stash, done) && id in users && id !in done
    ensures LostUpTo(was, users[id := User(Null, Null)], stash + Tokens(id, users[id]), done + {id})
  {
  }

  lemma LostAll(was: State, users: Users, stash: set<Stashed>, rows: set<string>)
    requires LostUpTo(was, users, stash, rows) && rows == set id | id in was.users && RowEncrypted(was.users[id])
    ensures users == TokensLost(was).users && stash == TokensLost(was).stash
  {
    assert users == TokensLost(was).users;
    forall x ensures x in stash <==> x in TokensLost(was).stash {
    }
  }

  /** What a boot that goes through hands to the provider: a key, and whether its fingerprint was stored. */
  datatype GuardResult = Refused | Ready(key: Option<string>, alreadyPersisted: bool)

  method RunEncryptionGuards(db: Database, env: Env, fp: string -> string) returns (r: GuardResult)
    modifies db
    ensures r.Refused? <==>
              if env.key == None then old(Holders(db.users)) != {} && !old(LossConfirmed(db.users, env))
              else old(db.fingerprint).Some? && old(db.fingerprint).value != fp(env.key.value) && !env.allowRotation
    ensures r.Refused? ==> db.With(Down) == old(db.With(Down))
    ensures r.Ready? ==> r.key == env.key
    ensures r.Ready? && env.key == None && old(Holders(db.users)) == {} ==> db.With(Down) == old(db.With(Down))
    ensures r.Ready? && env.key == None && old(Holders(db.users)) != {} ==>
              TokensGone(old(db.With(Down)), db.With(Down))
    ensures r.Ready? && env.key.Some? ==> PlaintextGone(old(db.With(Down)), db.With(Down), env.key.value)
    ensures r.Ready? ==>
              db.With(Running(r.key, r.alreadyPersisted, {})) == Boot(old(db.With(Down)), env, fp)
  {
    HoldersAre(db.users);
    if env.key == None {
      KeylessBoot(db.With(Down), env, fp);
    } else {
      KeyedBoot(db.With(Down), env, fp);
    }
    var hasEncryptedRows := HasEncrypted(db.users);
    var stored := db.fingerprint;
    if hasEncryptedRows && env.key == None {
      if !env.allowTokenLoss || env.confirmedRows != Some(EncryptedCount(db.users)) {
        return Refused;
      }
      db.InvalidateTokens();
      assert db.With(Down) == TokensLost(old(db.With(Down)));
      return Ready(None, false);
    }
    if env.key == None {
      return Ready(None, false);
    }
    var key := env.key.value;
    if stored.Some? && stored.value != fp(key) {
      if !env.allowRotation {
        return Refused;
      }
      db.fingerprint := None;
      ghost var mid := db.With(Down);
      db.MigratePlaintextIdpTokens(key, fp);
      assert db.With(Down) == Swept(mid, key, fp);
      return Ready(env.key, false);
    }
    if hasEncryptedRows && stored == None {
      db.fingerprint := Some(fp(key));
      ghost var mid := db.With(Down);
      db.MigratePlaintextIdpTokens(key, fp);
      assert db.With(Down) == Swept(mid, key, fp);
      return Ready(env.key, true);
    }
    db.MigratePlaintextIdpTokens(key, fp);
    assert db.With(Down) == Swept(old(db.With(Down)), key, fp);
    return Ready(env.key, stored.Some?);
  }

  /** The wrapped provider; without a key it is the passthrough provider. */
  class Provider {
    const key: Option<string>
    var persisted: bool

    constructor (r: GuardResult)
      requires r.Ready?
      ensures key == r.key && persisted == r.alreadyPersisted
    {
      key, persisted := r.key, r.alreadyPersisted;
    }

    method Encrypt(db: Database, text: string, fp: string -> string, ghost issued: set<Column>) returns (c: Column)
      modifies this`persisted, db`fingerprint
      ensures db.With(Running(key, persisted, issued + {c})) ==
              EncryptCall(old(db.With(Running(key, persisted, issued))), text, fp)
      ensures c == if key.Some? then Enc(key.value, text) else Plain(text)
      ensures key == None ==> persisted == old(persisted) && db.fingerprint == old(db.fingerprint)
      ensures key.Some? ==> persisted
      ensures key.Some? ==>
                db.fingerprint ==
                if old(persisted) || old(db.fingerprint).Some? then old(db.fingerprint) else Some(fp(key.value))
    {
      if key == None {
        return Plain(text);
      }
      c := Enc(key.value, text);
      if !persisted {
        if db.fingerprint == None {
          db.fingerprint := Some(fp(key.value));
        }
        persisted := true;
      }
    }
  }
}
