// The account operations and the token getter run one at a time, as the methods that carry them out.
// `TokenCache` has the same operations cut into steps and interleaved.
module Accounts {
  import opened Wrappers
  import opened EnginePref
  import opened TokenCache

  // The keyring, the account index and the token cache together.
  datatype Store = Store(keyring: set<Account>, index: Index, cache: Option<CachedToken>)

  // What one removal meets: the engine in force when it starts, and what the outside world answers. A
  // revocation that fails is only logged.
  datatype RemovalIo = RemovalIo(engine: Engine, revoked: bool, keyringOk: bool, indexOk: bool)

  // What a mint would be answered: the refresh of the active account's session, with the token's issue
  // time and lifetime; gcloud's own token; the one its ADC file refreshes to; and when the answer arrives.
  datatype MintIo = MintIo(refresh: Option<(nat, nat)>, cli: Option<Token>, adc: Option<Token>, arrives: nat)

  // ---------- what each operation does ----------

  function NewToken(s: Store, engine: Engine, io: MintIo): (token: Option<Token>) {
    if engine.Gcloud? then if io.cli.Some? then io.cli else io.adc
    else if s.index.active.None? || s.index.active.value !in s.keyring || io.refresh.None? then None
    else Some(Token(Native, s.index.active, io.refresh.value.0, io.refresh.value.1))
  }

  function AfterGet(s: Store, engine: Engine, now: nat, io: MintIo): (r: (Store, Option<Token>)) {
    if s.cache.Some? && s.cache.value.IsUsableFor(engine, now) then (s, Some(s.cache.value.token))
    else
      var token := NewToken(s, engine, io);
      if token.None? then (s, None) else (s.(cache := Some(CachedToken(token.value, io.arrives, engine))), token)
  }

  // `written` is whether the index write succeeds or, under the gcloud engine, gcloud's own switch, whose
  // effect lies outside LCC.
  function AfterSwitch(s: Store, engine: Engine, email: Account, valid: Account -> bool, written: bool): (r: (Store, bool)) {
    if !valid(email) || !written then (s, false)
    else if engine.Gcloud? then (s.(cache := None), true)
    else if email !in s.index.accounts then (s, false)
    else (s.(index := s.index.(active := Some(email)), cache := None), true)
  }

  function AfterRemove(s: Store, email: Account, valid: Account -> bool, io: RemovalIo): (r: (Store, bool)) {
    if io.engine.Gcloud? || !valid(email) || !io.keyringOk then (s, false)
    else if !io.indexOk then (s.(keyring := s.keyring - {email}), false)
    else (Store(s.keyring - {email}, IndexRemove(s.index, email), None), true)
  }

  // `sign_in_and_store`, past the browser. A failed index write takes the credential of an account that was
  // not listed back out again.
  function AfterSignIn(s: Store, email: Account, keyringOk: bool, indexOk: bool): (r: (Store, bool)) {
    if !keyringOk then (s, false)
    else if !indexOk then (if email in s.index.accounts then s.(keyring := s.keyring + {email}) else s.(keyring := s.keyring - {email}), false)
    else (Store(s.keyring + {email}, IndexUpsert(s.index, email), None), true)
  }

  // `list_accounts`: the accounts the keyring does not disown. A failed rewrite of the index is ignored.
  function AfterList(s: Store, answering: set<Account>, saved: bool): (r: (Store, seq<Account>)) {
    var kept := IndexKeep(s.index, answering);
    (if saved then s.(index := kept) else s, kept.accounts)
  }

  // Removes the listed accounts in order and stops at the first that fails.
  function AfterRemovals(s: Store, emails: seq<Account>, valid: Account -> bool, io: seq<RemovalIo>): (r: (Store, bool))
    requires |io| == |emails|
    decreases |emails|
  {
    if emails == [] then (s, true)
    else
      var (s', ok) := AfterRemove(s, emails[0], valid, io[0]);
      if ok then AfterRemovals(s', emails[1..], valid, io[1..]) else (s', false)
  }

  // ---------- the operations ----------

  class Session {
    var keyring: set<Account>
    var index: Index
    var cache: Option<CachedToken>

    constructor (keyring: set<Account>, index: Index)
      ensures Contents() == Store(keyring, index, None)
    {
      this.keyring, this.index, cache := keyring, index, None;
    }

    ghost function Contents(): (s: Store)
      reads this
    {
      Store(keyring, index, cache)
    }

    method Invalidate()
      modifies this`cache
      ensures cache.None?
    {
      cache := None;
    }

    // The entry is this engine's and was fetched less than 300 s ago.
    ghost predicate UnderFiveMinutes(engine: Engine, now: nat)
      reads this
    {
      cache.Some? && cache.value.engine == engine && now - cache.value.fetchedAt < 300_000
    }

    // The part of `get_access_token` that runs under the lock, for a caller that resolved `engine`.
    method GetAccessToken(engine: Engine, now: nat, io: MintIo) returns (token: Option<Token>)
      modifies this`cache
      ensures (Contents(), token) == AfterGet(old(Contents()), engine, now, io)
      ensures old(UnderFiveMinutes(engine, now)) ==> token == Some(old(cache).value.token) && cache == old(cache)
      ensures !old(UnderFiveMinutes(engine, now)) ==>
        && (engine.Gcloud? && io.cli.Some? ==> token == io.cli)
        && (engine.Gcloud? && io.cli.None? ==> token == io.adc)
        && (engine.Native? ==>
              (token.Some? <==> index.active.Some? && index.active.value in keyring && io.refresh.Some?) &&
              (token.Some? ==> token.value == Token(Native, index.active, io.refresh.value.0, io.refresh.value.1)))
        && cache == if token.Some? then Some(CachedToken(token.value, io.arrives, engine)) else old(cache)
    {
      if cache.Some? && cache.value.IsUsableFor(engine, now) {
        return Some(cache.value.token);
      }
      if engine.Native? {
        token := TokenFromNativeSession(io);
      } else {
        token := io.cli;
        if token.None? {
          token := io.adc;
        }
      }
      if token.Some? {
        cache := Some(CachedToken(token.value, io.arrives, engine));
      }
    }

    method TokenFromNativeSession(io: MintIo) returns (token: Option<Token>)
      ensures token == NewToken(Contents(), Native, io)
      ensures token.Some? ==> token.value.account.Some? && token.value.account == index.active && token.value.account.value in keyring
    {
      if index.active.None? || index.active.value !in keyring || io.refresh.None? {
        return None;
      }
      token := Some(Token(Native, index.active, io.refresh.value.0, io.refresh.value.1));
    }

    method Switch(engine: Engine, email: Account, valid: Account -> bool, written: bool) returns (ok: bool)
      modifies this
      ensures (Contents(), ok) == AfterSwitch(old(Contents()), engine, email, valid, written)
      ensures keyring == old(keyring) && index.accounts == old(index.accounts)
      ensures ok ==> cache.None? && (engine.Native? ==> index.active == Some(email) && email in index.accounts)
      ensures !ok || engine.Gcloud? ==> index == old(index)
      ensures !ok ==> cache == old(cache)
    {
      if !valid(email) {
        return false;
      }
      if !written || (engine.Native? && email !in index.accounts) {
        return false;
      }
      if engine.Native? {
        index := index.(active := Some(email));
      }
      Invalidate();
      return true;
    }

    method Remove(email: Account, valid: Account -> bool, io: RemovalIo) returns (ok: bool)
      modifies this
      ensures (Contents(), ok) == AfterRemove(old(Contents()), email, valid, io)
      ensures ok ==> email !in keyring && email !in index.accounts && index.active != Some(email) && cache.None?
      ensures !ok ==> index == old(index) && cache == old(cache)
    {
      if io.engine.Gcloud? || !valid(email) {
        return false;
      }
      // Revoke then delete, and delete whatever the revocation said.
      if !io.keyringOk {
        return false;
      }
      keyring := keyring - {email};
      if !io.indexOk {
        return false;
      }
      RetainMembers(index.accounts, set a | a in index.accounts && a != email);
      index := IndexRemove(index, email);
      Invalidate();
      return true;
    }

    method SignIn(email: Account, keyringOk: bool, indexOk: bool) returns (ok: bool)
      modifies this
      ensures (Contents(), ok) == AfterSignIn(old(Contents()), email, keyringOk, indexOk)
      ensures ok == (keyringOk && indexOk)
      ensures ok ==> email in keyring && email in index.accounts && cache.None?
      ensures ok ==> index.active == if old(index).active.Some? then old(index).active else Some(email)
      ensures !ok ==> index == old(index) && cache == old(cache)
      ensures !ok && email !in old(index).accounts ==> keyring <= old(keyring)
    {
      if !keyringOk {
        return false;
      }
      keyring := keyring + {email};
      var known := email in index.accounts;
      if !indexOk {
        if !known {
          keyring := keyring - {email};
          assert keyring == old(keyring) - {email};
        }
        return false;
      }
      index := IndexUpsert(index, email);
      Invalidate();
      return true;
    }

    method List(answering: set<Account>, saved: bool) returns (emails: seq<Account>)
      modifies this
      ensures (Contents(), emails) == AfterList(old(Contents()), answering, saved)
      ensures forall a :: a in emails <==> a in old(index).accounts && a in answering
      ensures keyring == old(keyring) && cache == old(cache)
      ensures saved ==> index.accounts == emails
      ensures !saved ==> index == old(index)
    {
      RetainMembers(index.accounts, answering);
      var kept := IndexKeep(index, answering);
      if kept != index && saved {
        index := kept;
      }
      emails := kept.accounts;
    }

    method LogOutAll(engine: Engine, valid: Account -> bool, answering: set<Account>, saved: bool, io: seq<RemovalIo>) returns (ok: bool)
      requires |io| == |IndexKeep(index, answering).accounts|
      modifies this
      ensures engine.Gcloud? ==> Contents() == old(Contents()) && !ok
      ensures ok ==> forall a | a in old(index).accounts && a in answering :: a !in keyring && index.active != Some(a)
      ensures engine.Native? ==>
        var (listed, emails) := AfterList(old(Contents()), answering, saved);
        (Contents(), ok) == AfterRemovals(listed, emails, valid, io)
    {
      if engine.Gcloud? {
        return false;
      }
      var emails := List(answering, saved);
      ghost var listed := Contents();
      ghost var goal := AfterRemovals(Contents(), emails, valid, io);
      for i := 0 to |emails|
        invariant goal == AfterRemovals(Contents(), emails[i..], valid, io[i..])
      {
        assert emails[i..][1..] == emails[i + 1..] && io[i..][1..] == io[i + 1..];
        var removed := Remove(emails[i], valid, io[i]);
        if !removed {
          return false;
        }
      }
      LogOutOkEmptiesTheListing(listed, emails, valid, io);
      return true;
    }
  }

  // ---------- what the getter returns ----------

  // The getter without a usable entry, case by case; with one, its token is what is returned.
  lemma GetterCaseByCase(s: Store, engine: Engine, now: nat, io: MintIo)
    ensures
      var (after, token) := AfterGet(s, engine, now, io);
      var usable := s.cache.Some? && s.cache.value.engine == engine && now - s.cache.value.fetchedAt < 300_000;
      var active := s.index.active;
      && (usable ==> after == s && token == Some(s.cache.value.token))
      && (!usable && engine.Gcloud? ==> token == if io.cli.Some? then io.cli else io.adc)
      && (!usable && engine.Native? && active.Some? && active.value in s.keyring && io.refresh.Some? ==>
            token == Some(Token(Native, active, io.refresh.value.0, io.refresh.value.1)))
      && (!usable && engine.Native? && !(active.Some? && active.value in s.keyring && io.refresh.Some?) ==> token == None)
      && (!usable ==> after == if token.Some? then s.(cache := Some(CachedToken(token.value, io.arrives, engine))) else s)
  {
  }

  // ---------- signing in ----------

  // A stored sign-in adds the account at the end of the list if it is not there, and makes it active only
  // if none was; one that fails leaves no credential behind that nothing lists.
  lemma SignInCaseByCase(s: Store, email: Account, keyringOk: bool, indexOk: bool)
    ensures
      var (after, ok) := AfterSignIn(s, email, keyringOk, indexOk);
      && ok == (keyringOk && indexOk)
      && (ok ==> after.index.accounts == if email in s.index.accounts then s.index.accounts else s.index.accounts + [email])
      && (ok ==> after.index.active == if s.index.active.Some? then s.index.active else Some(email))
      && (ok ==> after.keyring == s.keyring + {email} && after.cache == None)
      && (!ok ==> after.index == s.index && after.cache == s.cache && after.keyring - {email} == s.keyring - {email})
      && (!ok && keyringOk ==> (email in after.keyring <==> email in s.index.accounts))
  {
  }

  // ---------- listing ----------

  // The emails listed are exactly the index's accounts that answer, in index order, none dropped: `pos`
  // gives their places.
  lemma ListingKeepsWhoAnswers(s: Store, answering: set<Account>, saved: bool) returns (pos: seq<nat>)
    ensures
      var (after, emails) := AfterList(s, answering, saved);
      ArePlaces(s.index.accounts, answering, pos, emails)
  {
    pos := PlacesKept(s.index.accounts, answering);
  }

  // `read` is what stands at the places `pos`: those of the kept accounts, all of them and in order.
  predicate ArePlaces(accounts: seq<Account>, kept: set<Account>, pos: seq<nat>, read: seq<Account>) {
    && |pos| == |read|
    && (forall i | 0 <= i < |pos| :: pos[i] < |accounts| && read[i] == accounts[pos[i]])
    && (forall i, j | 0 <= i < j < |pos| :: pos[i] < pos[j])
    && (forall k: nat | k < |accounts| :: accounts[k] in kept <==> k in pos)
  }

  lemma {:induction false} PlacesKept(accounts: seq<Account>, kept: set<Account>) returns (pos: seq<nat>)
    ensures ArePlaces(accounts, kept, pos, Retain(accounts, kept))
  {
    if accounts == [] {
      pos := [];
    } else {
      var front, last := accounts[..|accounts| - 1], accounts[|accounts| - 1];
      pos := PlacesKept(front, kept);
      RetainOneMore(front, last, kept);
      PlacesGrow(front, last, kept, pos, Retain(front, kept));
      assert accounts == front + [last];
      if last in kept {
        pos := pos + [|front|];
      }
    }
  }

  lemma RetainOneMore(front: seq<Account>, last: Account, kept: set<Account>)
    ensures Retain(front + [last], kept) == if last in kept then Retain(front, kept) + [last] else Retain(front, kept)
  {
    RetainConcat(front, [last], kept);
    RetainOneByOne([], kept);
    assert Retain(front, kept) + [] == Retain(front, kept);
  }

  lemma PlacesGrow(front: seq<Account>, last: Account, kept: set<Account>, pos: seq<nat>, read: seq<Account>)
    requires ArePlaces(front, kept, pos, read)
    ensures
      if last in kept then ArePlaces(front + [last], kept, pos + [|front|], read + [last])
      else ArePlaces(front + [last], kept, pos, read)
  {
    var accounts, more := front + [last], if last in kept then pos + [|front|] else pos;
    forall k: nat | k < |accounts| ensures accounts[k] in kept <==> k in more {
      if k < |front| {
        assert accounts[k] == front[k] && (k in more <==> k in pos);
      }
    }
  }

  // Listing touches the active account and the index only as far as accounts have gone: an active account
  // that is listed and answers stays active, and if all of them do the index stays as it is.
  lemma ListingSparesWhoAnswers(s: Store, answering: set<Account>, saved: bool)
    ensures
      var (after, emails) := AfterList(s, answering, saved);
      var active := s.index.active;
      && after.keyring == s.keyring && after.cache == s.cache
      && (!saved ==> after.index == s.index)
      && (saved ==> after.index.accounts == emails)
      && (active.Some? && active.value in s.index.accounts && active.value in answering ==> after.index.active == active)
      && (saved && !(active.Some? && active.value in s.index.accounts && active.value in answering) ==> after.index.active == None)
      && ((forall a | a in s.index.accounts :: a in answering) && (active.Some? ==> active.value in s.index.accounts) ==>
            after.index == s.index && emails == s.index.accounts)
  {
    if forall a | a in s.index.accounts :: a in answering {
      RetainAll(s.index.accounts, answering);
    }
  }

  // An account as the front end gets it; `status` is `"ACTIVE"` or empty.
  datatype Listed = Listed(account: Account, status: string)

  function ToAccounts(emails: seq<Account>, active: Option<Account>): (r: seq<Listed>)
    ensures |r| == |emails|
  {
    if emails == [] then []
    else [Listed(emails[0], if active == Some(emails[0]) then "ACTIVE" else "")] + ToAccounts(emails[1..], active)
  }

  lemma {:induction false} ToAccountsAt(emails: seq<Account>, active: Option<Account>, i: nat)
    requires i < |emails|
    ensures ToAccounts(emails, active)[i] == Listed(emails[i], if active == Some(emails[i]) then "ACTIVE" else "")
  {
    if i > 0 {
      ToAccountsAt(emails[1..], active, i - 1);
    }
  }

  predicate FlagsOne(listed: seq<Listed>) {
    exists i | 0 <= i < |listed| :: listed[i].status == "ACTIVE"
  }

  // What `list` shows: the order of the index, the flag on the active account and on no other. Some account
  // is flagged exactly when one is active - unless the pruned index could not be written, and then the
  // active account may be one that is no longer listed.
  lemma ListingFlagsTheActive(s: Store, answering: set<Account>, saved: bool)
    ensures
      var (after, emails) := AfterList(s, answering, saved);
      var listed := ToAccounts(emails, after.index.active);
      && |listed| == |emails|
      && (forall i | 0 <= i < |listed| :: listed[i].account == emails[i] && emails[i] in answering)
      && (forall i | 0 <= i < |listed| :: listed[i].status == "ACTIVE" <==> after.index.active == Some(emails[i]))
      && (FlagsOne(listed) <==> after.index.active.Some? && after.index.active.value in emails)
      && (saved ==> (FlagsOne(listed) <==> after.index.active.Some?))
  {
    var (after, emails) := AfterList(s, answering, saved);
    RetainMembers(s.index.accounts, answering);
    forall i | 0 <= i < |emails|
      ensures ToAccounts(emails, after.index.active)[i] == Listed(emails[i], if after.index.active == Some(emails[i]) then "ACTIVE" else "")
      ensures emails[i] in answering
    {
      ToAccountsAt(emails, after.index.active, i);
      assert emails[i] in Retain(s.index.accounts, answering);
    }
    FlagAppears(emails, after.index.active);
  }

  lemma FlagAppears(emails: seq<Account>, active: Option<Account>)
    ensures FlagsOne(ToAccounts(emails, active)) <==> active.Some? && active.value in emails
  {
    if active.Some? && active.value in emails {
      var i :| 0 <= i < |emails| && emails[i] == active.value;
      ToAccountsAt(emails, active, i);
    }
    if FlagsOne(ToAccounts(emails, active)) {
      var i :| 0 <= i < |emails| && ToAccounts(emails, active)[i].status == "ACTIVE";
      ToAccountsAt(emails, active, i);
    }
  }

  // ---------- logging out ----------

  // `s` without the accounts in `gone`.
  function Without(s: Store, gone: set<Account>): (r: Store) {
    Store(s.keyring - gone,
          Index(Retain(s.index.accounts, Members(s.index.accounts) - gone),
                if s.index.active.Some? && s.index.active.value in gone then None else s.index.active),
          if gone == {} then s.cache else None)
  }

  function Members(emails: seq<Account>): (r: set<Account>) {
    set a | a in emails
  }

  lemma RetainAll(accounts: seq<Account>, kept: set<Account>)
    requires forall a | a in accounts :: a in kept
    ensures Retain(accounts, kept) == accounts
  {
  }

  lemma {:induction false} RetainTwice(accounts: seq<Account>, first: set<Account>, second: set<Account>)
    ensures Retain(Retain(accounts, first), second) == Retain(accounts, first * second)
  {
    if accounts == [] {
    } else {
      RetainTwice(accounts[1..], first, second);
      var tail := Retain(accounts[1..], first);
      if accounts[0] in first {
        assert Retain(accounts, first) == [accounts[0]] + tail && ([accounts[0]] + tail)[1..] == tail;
      } else {
        assert Retain(accounts, first) == tail;
      }
    }
  }

  lemma RetainSame(accounts: seq<Account>, first: set<Account>, second: set<Account>)
    requires forall a | a in accounts :: a in first <==> a in second
    ensures Retain(accounts, first) == Retain(accounts, second)
  {
  }

  lemma RemoveThenRest(s: Store, email: Account, gone: set<Account>)
    ensures Without(Store(s.keyring - {email}, IndexRemove(s.index, email), None), gone) == Without(s, {email} + gone)
  {
    var r := IndexRemove(s.index, email);
    assert s.keyring - {email} - gone == s.keyring - ({email} + gone);
    RetainInSteps(s.index.accounts, email, gone);
  }

  lemma RetainInSteps(accounts: seq<Account>, email: Account, gone: set<Account>)
    ensures
      var once := Retain(accounts, set a | a in accounts && a != email);
      Retain(once, Members(once) - gone) == Retain(accounts, Members(accounts) - ({email} + gone))
  {
    var first := set a | a in accounts && a != email;
    var once := Retain(accounts, first);
    RetainMembers(accounts, first);
    RetainTwice(accounts, first, Members(once) - gone);
    RetainSame(accounts, first * (Members(once) - gone), Members(accounts) - ({email} + gone));
  }

  lemma WithoutNobody(s: Store)
    ensures Without(s, {}) == s
  {
    assert Members(s.index.accounts) - {} == Members(s.index.accounts);
    RetainAll(s.index.accounts, Members(s.index.accounts));
    assert s.keyring - {} == s.keyring;
  }

  predicate Succeeds(email: Account, valid: Account -> bool, io: RemovalIo) {
    io.engine.Native? && valid(email) && io.keyringOk && io.indexOk
  }

  // `n` removals succeed, and if there is an `n`-th it fails.
  predicate FirstFailure(emails: seq<Account>, valid: Account -> bool, io: seq<RemovalIo>, n: nat)
    requires |io| == |emails|
  {
    && n <= |emails|
    && (forall i | 0 <= i < n :: Succeeds(emails[i], valid, io[i]))
    && (n < |emails| ==> !Succeeds(emails[n], valid, io[n]))
  }

  predicate DeletesCredential(email: Account, valid: Account -> bool, io: RemovalIo) {
    io.engine.Native? && valid(email) && io.keyringOk
  }

  // With the first failing removal at `n`, the store is exactly the first one without the accounts before
  // it; if that removal failed after deleting the credential, that one credential is missing besides.
  lemma {:induction false} RemovalsTakeAPrefix(s: Store, emails: seq<Account>, valid: Account -> bool, io: seq<RemovalIo>, n: nat)
    requires |io| == |emails| && FirstFailure(emails, valid, io, n)
    ensures AfterRemovals(s, emails, valid, io).1 <==> n == |emails|
    ensures
      var clean := Without(s, Members(emails[..n]));
      AfterRemovals(s, emails, valid, io).0
      == clean.(keyring := if n < |emails| && DeletesCredential(emails[n], valid, io[n]) then clean.keyring - {emails[n]} else clean.keyring)
    decreases n
  {
    if n == 0 {
      WithoutNobody(s);
      assert Members([]) == {} && emails[..0] == [];
    } else {
      var s' := AfterRemove(s, emails[0], valid, io[0]).0;
      var rest := emails[1..];
      assert Succeeds(emails[0], valid, io[0]);
      forall i | 0 <= i < n - 1 ensures Succeeds(rest[i], valid, io[1..][i]) {
        assert Succeeds(emails[i + 1], valid, io[i + 1]);
      }
      RemovalsTakeAPrefix(s', rest, valid, io[1..], n - 1);
      assert emails[..n] == [emails[0]] + rest[..n - 1];
      assert Members(emails[..n]) == {emails[0]} + Members(rest[..n - 1]);
      RemoveThenRest(s, emails[0], Members(rest[..n - 1]));
    }
  }

  // There is exactly one such `n`; this finds it, the removals before `upTo` having succeeded.
  lemma {:induction false} FindFirstFailure(emails: seq<Account>, valid: Account -> bool, io: seq<RemovalIo>, upTo: nat) returns (n: nat)
    requires |io| == |emails| && upTo <= |emails| && forall i | 0 <= i < upTo :: Succeeds(emails[i], valid, io[i])
    ensures FirstFailure(emails, valid, io, n)
    ensures forall m: nat | FirstFailure(emails, valid, io, m) :: m == n
    decreases |emails| - upTo
  {
    if upTo < |emails| && Succeeds(emails[upTo], valid, io[upTo]) {
      n := FindFirstFailure(emails, valid, io, upTo + 1);
    } else {
      n := upTo;
    }
  }

  // Logging out under the native engine and getting Ok: no listed account is left in the keyring or in
  // the index or active, no other account is touched, whatever the revocations said, and the cache is
  // empty if anything was listed.
  lemma LogOutOkEmptiesTheListing(s: Store, emails: seq<Account>, valid: Account -> bool, io: seq<RemovalIo>)
    requires |io| == |emails| && AfterRemovals(s, emails, valid, io).1
    ensures
      var r := AfterRemovals(s, emails, valid, io).0;
      && (forall a | a in emails :: a !in r.keyring && a !in r.index.accounts && r.index.active != Some(a))
      && (forall a | a !in emails :: (a in r.keyring <==> a in s.keyring) && (a in r.index.accounts <==> a in s.index.accounts))
      && (emails != [] ==> r.cache.None?)
  {
    var n := FindFirstFailure(emails, valid, io, 0);
    RemovalsTakeAPrefix(s, emails, valid, io, n);
    assert emails[..n] == emails;
    RetainMembers(s.index.accounts, Members(s.index.accounts) - Members(emails));
    if emails != [] {
      assert emails[0] in Members(emails);
    }
  }

  // The one way an account after the failing removal's prefix is touched.
  predicate LosesOnlyItsCredential(s: Store, emails: seq<Account>, n: nat, valid: Account -> bool, io: seq<RemovalIo>)
    requires n < |emails| == |io|
  {
    DeletesCredential(emails[n], valid, io[n]) && emails[n] in s.keyring && emails[n] !in emails[..n]
  }

  // Logging out errs exactly when some removal fails. With the first failure at account `n`, the accounts
  // before it are gone, and the store is exactly the old one without them - unless, and only unless,
  // account `n`'s credential was deleted before its index write failed.
  lemma LogOutErrTakesAPrefix(s: Store, emails: seq<Account>, valid: Account -> bool, io: seq<RemovalIo>, n: nat)
    requires |io| == |emails| && FirstFailure(emails, valid, io, n)
    ensures !AfterRemovals(s, emails, valid, io).1 <==> n < |emails|
    ensures n < |emails| ==>
      var r := AfterRemovals(s, emails, valid, io).0;
      && r.index == Without(s, Members(emails[..n])).index
      && (r == Without(s, Members(emails[..n])) <==> !LosesOnlyItsCredential(s, emails, n, valid, io))
  {
    RemovalsTakeAPrefix(s, emails, valid, io, n);
    var clean := Without(s, Members(emails[..n]));
    if n < |emails| {
      if LosesOnlyItsCredential(s, emails, n, valid, io) {
        assert emails[n] in clean.keyring;
      } else if DeletesCredential(emails[n], valid, io[n]) {
        assert clean.keyring - {emails[n]} == clean.keyring;
      }
    }
  }

  lemma LogOutCanHalfRemove(email: Account, other: Account)
    requires email != other
    ensures
      var s := Store({email, other}, Index([email, other], Some(email)), None);
      AfterRemovals(s, [email, other], _ => true, [RemovalIo(Native, true, true, false), RemovalIo(Native, true, true, true)])
      == (s.(keyring := {other}), false)
  {
    assert {email, other} - {email} == {other};
  }
}
