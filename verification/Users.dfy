/** The user list: credentials and the addresses each user may send as. */
module Users {
  import opened Basics

  datatype UserEntry = UserEntry(password: string, allowSendAs: set<string>)

  type UserMap = map<string, UserEntry>

  // Lower-casing, as the library does it.
  type Lower = string -> string

  // ----- send-as permission -----

  // The part of s behind its last c.
  function AfterLast(s: string, c: char): Option<string>
  {
    if s == "" then None
    else if Last(s) == c then Some("")
    else match AfterLast(Init(s), c)
      case None => None
      case Some(tail) => Some(tail + [Last(s)])
  }

  lemma SuffixOfInit(s: string, n: nat)
    requires n < |s|
    ensures Init(s)[n..] == Init(s[n..]) && Last(s) == Last(s[n..]) && s[n..] == Init(s)[n..] + [Last(s)]
  {
  }

  lemma ConsOfSnoc(c: char, t: string, d: char)
    ensures Init([c] + (t + [d])) == [c] + t && [c] + (t + [d]) == [c] + t + [d]
  {
  }

  lemma {:induction false} AfterLastMeaning(s: string, c: char, tail: string)
    ensures AfterLast(s, c) == Some(tail) <==> c !in tail && EndsWith(s, [c] + tail)
    decreases |s|
  {
    if s != "" {
      if Last(s) == c {
        assert EndsWith(s, [c] + "") by {
          assert s[|s| - 1..] == [c];
        }
        if tail != "" && EndsWith(s, [c] + tail) {
          assert Last(s) == Last(s[|s| - |tail| - 1..]) == Last(tail);
          assert Last(tail) in tail;
        }
      } else if tail == "" {
        assert [c] + tail == [c] && Last(s) == s[|s| - 1..][0];
      } else {
        AfterLastMeaning(Init(s), c, Init(tail));
        assert tail == Init(tail) + [Last(tail)];
        if EndsWith(s, [c] + tail) {
          var n := |s| - |tail| - 1;
          assert s[n..] == [c] + tail;
          SuffixOfInit(s, n);
          ConsOfSnoc(c, Init(tail), Last(tail));
        }
        if AfterLast(s, c) == Some(tail) {
          var t := AfterLast(Init(s), c).value;
          InitOfSnoc(t, Last(s));
          assert t == Init(tail) && Last(tail) == Last(s);
          var n := |Init(s)| - |Init(tail)| - 1;
          assert Init(s)[n..] == [c] + Init(tail);
          SuffixOfInit(s, n);
          ConsOfSnoc(c, Init(tail), Last(tail));
        }
      }
    }
  }

  // One entry of the list against a sender, both in lower case.
  predicate EntryPermits(entry: string, sender: string)
  {
    || entry == "*@*"
    || (StartsWith(entry, "*@") && entry[2..] != "" && AfterLast(sender, '@') == Some(entry[2..]))
    || entry == sender
  }

  // entry is the whole-domain entry of the sender's domain.
  predicate IsDomainOf(entry: string, sender: string, local: string, domain: string)
  {
    domain != "" && '@' !in domain && entry == "*@" + domain && sender == local + "@" + domain
  }

  // What the entries mean: everything, one address, or all addresses of one domain.
  ghost predicate EntryMeans(entry: string, sender: string)
  {
    entry == "*@*" || entry == sender || exists local, domain :: IsDomainOf(entry, sender, local, domain)
  }

  lemma DomainEntry(entry: string, sender: string) returns (local: string)
    requires StartsWith(entry, "*@") && entry[2..] != "" && AfterLast(sender, '@') == Some(entry[2..])
    ensures IsDomainOf(entry, sender, local, entry[2..])
  {
    hide AfterLast;
    var domain := entry[2..];
    AfterLastMeaning(sender, '@', domain);
    local := sender[..|sender| - |domain| - 1];
    assert entry == entry[..2] + domain;
    assert sender == local + sender[|local|..] == local + "@" + domain;
  }

  lemma DomainPermits(entry: string, sender: string, local: string, domain: string)
    requires IsDomainOf(entry, sender, local, domain)
    ensures domain != "" && StartsWith(entry, "*@") && entry[2..] == domain && AfterLast(sender, '@') == Some(domain)
  {
    hide AfterLast;
    assert entry[..2] == "*@" && entry[2..] == domain;
    assert sender[|local|..] == ['@'] + domain;
    AfterLastMeaning(sender, '@', domain);
  }

  lemma EntryPermitsIff(entry: string, sender: string)
    ensures EntryPermits(entry, sender) <==> EntryMeans(entry, sender)
  {
    hide AfterLast, IsDomainOf;
    if StartsWith(entry, "*@") && entry[2..] != "" && AfterLast(sender, '@') == Some(entry[2..]) {
      var local := DomainEntry(entry, sender);
    }
    if local, domain :| IsDomainOf(entry, sender, local, domain) {
      DomainPermits(entry, sender, local, domain);
    }
  }

  // Some entry permits the sender; letter case does not matter on either side.
  ghost predicate Permits(lower: Lower, entries: set<string>, sender: string)
  {
    exists entry :: entry in entries && EntryMeans(lower(entry), lower(sender))
  }

  ghost predicate CanSendAs(lower: Lower, users: UserMap, username: string, sender: string)
  {
    lower(username) in users && Permits(lower, users[lower(username)].allowSendAs, sender)
  }

  lemma PermitsMonotone(lower: Lower, entries: set<string>, more: set<string>, sender: string)
    requires entries <= more && Permits(lower, entries, sender)
    ensures Permits(lower, more, sender)
  {
  }

  function LowerAll(lower: Lower, entries: set<string>): set<string>
  {
    set e | e in entries :: lower(e)
  }

  lemma PermitsIgnoresCase(lower: Lower, entries: set<string>, entries': set<string>, sender: string, sender': string)
    requires lower(sender) == lower(sender')
    requires LowerAll(lower, entries) == LowerAll(lower, entries')
    ensures Permits(lower, entries, sender) <==> Permits(lower, entries', sender')
  {
    if Permits(lower, entries, sender) {
      PermitsByImage(lower, entries, entries', sender, sender');
    }
    if Permits(lower, entries', sender') {
      PermitsByImage(lower, entries', entries, sender', sender);
    }
  }

  lemma PermitsByImage(lower: Lower, entries: set<string>, entries': set<string>, sender: string, sender': string)
    requires lower(sender) == lower(sender')
    requires LowerAll(lower, entries) == LowerAll(lower, entries')
    requires Permits(lower, entries, sender)
    ensures Permits(lower, entries', sender')
  {
    var entry :| entry in entries && EntryMeans(lower(entry), lower(sender));
    assert lower(entry) in LowerAll(lower, entries);
    assert lower(entry) in LowerAll(lower, entries');
    var entry' :| entry' in entries' && lower(entry') == lower(entry);
  }

  // ----- updates -----

  function AddedSendAs(users: UserMap, user: string, sender: string): UserMap
  {
    if user in users then users[user := users[user].(allowSendAs := users[user].allowSendAs + {sender})] else users
  }

  function RemovedSendAs(users: UserMap, user: string, sender: string): UserMap
  {
    if user in users then users[user := users[user].(allowSendAs := users[user].allowSendAs - {sender})] else users
  }

  // A new user may send as himself; an existing user only gets the new password.
  function PasswordSet(lower: Lower, users: UserMap, username: string, hash: string): UserMap
  {
    var user := lower(username);
    if user in users then users[user := users[user].(password := hash)]
    else AddedSendAs(users[user := UserEntry(hash, {})], lower(user), user)
  }

  lemma PasswordUpdateKeepsSendAs(lower: Lower, users: UserMap, username: string, hash: string, other: string,
                                  sender: string)
    requires lower(username) in users
    ensures CanSendAs(lower, PasswordSet(lower, users, username, hash), other, sender) <==>
            CanSendAs(lower, users, other, sender)
  {
    var user := lower(username);
    var updated := PasswordSet(lower, users, username, hash);
    assert forall u :: u in users ==> updated[u].allowSendAs == users[u].allowSendAs;
  }

  lemma NewUserSendsAsHimself(lower: Lower, users: UserMap, username: string, hash: string, sender: string)
    requires forall s :: lower(lower(s)) == lower(s)
    requires lower(username) !in users && lower(sender) == lower(username)
    ensures CanSendAs(lower, PasswordSet(lower, users, username, hash), username, sender)
  {
    var user := lower(username);
    var updated := PasswordSet(lower, users, username, hash);
    assert user in updated[user].allowSendAs;
    assert EntryMeans(lower(user), lower(sender));
  }

  // Whether a stored hash belongs to a password, as the library decides.
  type Verify = (string, string) -> bool

  // The user exists and this is his password.
  predicate Accepts(lower: Lower, verify: Verify, users: UserMap, username: string, password: string)
  {
    lower(username) in users && verify(password, users[lower(username)].password)
  }

  // A password that was set is in force, for a known and for a new user, and for nobody else.
  lemma PasswordTakesEffect(lower: Lower, verify: Verify, users: UserMap, username: string, hash: string,
                            other: string, password: string)
    ensures var after := PasswordSet(lower, users, username, hash);
            Accepts(lower, verify, after, other, password) <==>
            if lower(other) == lower(username) then verify(password, hash)
            else Accepts(lower, verify, users, other, password)
  {
    var user := lower(username);
    var after := PasswordSet(lower, users, username, hash);
    assert user in after && after[user].password == hash;
    assert forall u :: u != user ==> (u in after <==> u in users);
    assert forall u :: u != user && u in users ==> after[u].password == users[u].password;
  }

  // An entry added permits what it means, to that user, besides what was permitted before.
  lemma AdditionGrants(lower: Lower, users: UserMap, user: string, entry: string, username: string, sender: string)
    ensures CanSendAs(lower, AddedSendAs(users, user, entry), username, sender) <==>
            CanSendAs(lower, users, username, sender) ||
            (lower(username) == user && user in users && EntryMeans(lower(entry), lower(sender)))
  {
    hide EntryMeans;
    var after := AddedSendAs(users, user, entry);
    if user in users {
      assert after[user].allowSendAs == users[user].allowSendAs + {entry};
      assert entry in after[user].allowSendAs;
      assert forall e :: e in users[user].allowSendAs ==> e in after[user].allowSendAs;
    }
  }

  // What an entry withdrawn leaves: every other entry of that user, and all entries of the others.
  lemma RemovalLeaves(lower: Lower, users: UserMap, user: string, entry: string, username: string, sender: string)
    ensures CanSendAs(lower, RemovedSendAs(users, user, entry), username, sender) <==>
            && lower(username) in users
            && exists e :: e in users[lower(username)].allowSendAs && !(lower(username) == user && e == entry) &&
                           EntryMeans(lower(e), lower(sender))
  {
    hide EntryMeans;
    var after := RemovedSendAs(users, user, entry);
    if user in users {
      assert after[user].allowSendAs == users[user].allowSendAs - {entry};
    }
    if lower(username) in users {
      assert forall e :: e in after[lower(username)].allowSendAs <==>
                         e in users[lower(username)].allowSendAs && !(lower(username) == user && e == entry);
    }
  }

  // Neither touches passwords.
  lemma EntriesKeepPasswords(lower: Lower, verify: Verify, users: UserMap, user: string, entry: string,
                             username: string, password: string)
    ensures Accepts(lower, verify, AddedSendAs(users, user, entry), username, password) <==>
            Accepts(lower, verify, users, username, password)
    ensures Accepts(lower, verify, RemovedSendAs(users, user, entry), username, password) <==>
            Accepts(lower, verify, users, username, password)
  {
  }

  // One entry against an address, as three string tests: the entry for everything, the address itself,
  // and the entry for all addresses of the domain behind its last "@".
  predicate Covers(entry: string, address: string)
  {
    || entry == "*@*" || entry == address
    || (AfterLast(address, '@').Some? && AfterLast(address, '@').value != "" &&
        entry == "*@" + AfterLast(address, '@').value)
  }

  lemma CoversIff(entry: string, address: string)
    ensures Covers(entry, address) <==> EntryMeans(entry, address)
  {
    hide AfterLast;
    EntryPermitsIff(entry, address);
    var domain := AfterLast(address, '@');
    if domain.Some? && entry == "*@" + domain.value {
      assert entry[..2] == "*@" && entry[2..] == domain.value;
    }
    if StartsWith(entry, "*@") {
      assert entry == entry[..2] + entry[2..];
    }
  }

  // The entry, not the one withdrawn, still covers the address: it is for everything, another spelling
  // of the address, or for its domain.
  predicate StillCovers(lower: Lower, entry: string, sender: string)
  {
    entry != sender && Covers(lower(entry), lower(sender))
  }

  // Withdrawing an address from a known user ends his permission for it exactly if none of his other
  // entries is for everything, is another spelling of the address, or is for its domain.
  lemma WithdrawalEffectiveIff(lower: Lower, users: UserMap, username: string, sender: string)
    requires lower(username) in users
    ensures !CanSendAs(lower, RemovedSendAs(users, lower(username), sender), username, sender) <==>
            forall entry :: entry in users[lower(username)].allowSendAs ==> !StillCovers(lower, entry, sender)
  {
    hide AfterLast, Covers, EntryMeans;
    var user := lower(username);
    var after := RemovedSendAs(users, user, sender);
    assert after[user].allowSendAs == users[user].allowSendAs - {sender};
    forall entry
      ensures Covers(lower(entry), lower(sender)) <==> EntryMeans(lower(entry), lower(sender))
    {
      CoversIff(lower(entry), lower(sender));
    }
    if entry :| entry in users[user].allowSendAs && StillCovers(lower, entry, sender) {
      assert entry in after[user].allowSendAs;
    }
  }

  // An address that was entered with a capital letter survives its withdrawal in small letters.
  lemma WithdrawalIsCaseSensitive(lower: Lower, users: UserMap, username: string)
    requires lower("Bob@x") == "bob@x" && lower("bob@x") == "bob@x"
    requires lower(username) in users && users[lower(username)].allowSendAs == {"Bob@x"}
    ensures CanSendAs(lower, RemovedSendAs(users, lower(username), "bob@x"), username, "bob@x")
  {
    hide AfterLast;
    assert "Bob@x"[0] != "bob@x"[0];
    assert StillCovers(lower, "Bob@x", "bob@x");
    WithdrawalEffectiveIff(lower, users, username, "bob@x");
  }

  class UserList {
    const lower: Lower
    const verify: Verify
    var users: UserMap

    constructor (lower: Lower, verify: Verify)
      ensures users == map[] && this.lower == lower && this.verify == verify
    {
      this.lower, this.verify, users := lower, verify, map[];
    }

    // hash is the salted hash of the new password, or None where hashing failed.
    method SetUserPassword(username: string, hash: Option<string>) returns (ok: bool)
      modifies this
      ensures users == if hash.None? then old(users) else PasswordSet(lower, old(users), username, hash.value)
      ensures hash.Some? ==>
                forall password :: Accepts(lower, verify, users, username, password) <==> verify(password, hash.value)
      ensures forall other, password :: hash.None? || lower(other) != lower(username) ==>
                Accepts(lower, verify, users, other, password) == old(Accepts(lower, verify, users, other, password))
      ensures ok <==> hash.Some? && (lower(username) in old(users) || lower(lower(username)) in users)
    {
      var user := lower(username);
      if hash.None? {
        return false;
      }
      if user in users {
        users := users[user := users[user].(password := hash.value)];
        return true;
      }
      users := users[user := UserEntry(hash.value, {})];
      ok := AddUserSendAs(user, user);
    }

    method RemoveUser(username: string) returns (ok: bool)
      modifies this
      ensures users == old(users) - {lower(username)} && (ok <==> lower(username) in old(users))
    {
      ok := lower(username) in users;
      users := users - {lower(username)};
    }

    method AddUserSendAs(username: string, sender: string) returns (ok: bool)
      modifies this
      ensures users == AddedSendAs(old(users), lower(username), sender) && (ok <==> lower(username) in old(users))
    {
      var user := lower(username);
      if user !in users {
        return false;
      }
      users := users[user := users[user].(allowSendAs := users[user].allowSendAs + {sender})];
      ok := true;
    }

    method RemoveUserSendAs(username: string, sender: string) returns (ok: bool)
      modifies this
      ensures users == RemovedSendAs(old(users), lower(username), sender) && (ok <==> lower(username) in old(users))
    {
      var user := lower(username);
      if user !in users {
        return false;
      }
      users := users[user := users[user].(allowSendAs := users[user].allowSendAs - {sender})];
      ok := true;
    }

    method VerifyUserPassword(username: string, password: string) returns (ok: bool)
      ensures ok <==> lower(username) in users && verify(password, users[lower(username)].password)
    {
      var user := lower(username);
      ok := user in users && verify(password, users[user].password);
    }

    // Entry by entry in whatever order the set yields them, stopping at the first that permits.
    method VerifyUserCanSendAs(username: string, sender: string) returns (ok: bool)
      ensures ok <==> CanSendAs(lower, users, username, sender)
    {
      var user := lower(username);
      if user !in users {
        return false;
      }
      var address := lower(sender);
      var rest := users[user].allowSendAs;
      while rest != {}
        invariant rest <= users[user].allowSendAs
        invariant forall e :: e in users[user].allowSendAs && e !in rest ==> !EntryMeans(lower(e), address)
        decreases rest
      {
        var item :| item in rest;
        rest := rest - {item};
        var entry := lower(item);
        EntryPermitsIff(entry, address);
        if entry == "*@*" {
          return true;
        }
        if StartsWith(entry, "*@") && entry[2..] != "" && AfterLast(address, '@') == Some(entry[2..]) {
          return true;
        }
        if entry == address {
          return true;
        }
      }
      ok := false;
    }
  }
}
