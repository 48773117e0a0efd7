/** Properties of the account controllers, one call or several calls at a time. */
module Lifecycle {
  import opened Outcome
  import opened Accounts
  import opened Avatars
  import opened Users

  // ----- register -----

  /** An email already in use is refused with Conflict and nothing changes;
      a refused body is refused before the store is read. */
  lemma RegisterRefusals(cfg: Config, st: State, email: string, bodyValid: bool, issued: Fresh)
    ensures !bodyValid ==> Register(cfg, st, email, bodyValid, issued) == Reply(Fail(ValidationError), st)
    ensures bodyValid && EmailTaken(st.accounts, email) ==>
      Register(cfg, st, email, bodyValid, issued) == Reply(Fail(Conflict), st)
  {
    if bodyValid && EmailTaken(st.accounts, email) {
      var i :| 0 <= i < |st.accounts| && st.accounts[i].email == email;
      assert Matches(st.accounts[i], ByEmail(email));
    }
  }

  /** A free email registers exactly one new account: unverified, holding the
      mailed verification token, with the gravatar placeholder of the email,
      no session, the default subscription. The accounts before it are kept. */
  lemma RegisterAddsOneAccount(cfg: Config, st: State, email: string, issued: Fresh)
    requires !EmailTaken(st.accounts, email)
    requires forall j :: 0 <= j < |st.accounts| ==> st.accounts[j].id != issued.id
    ensures var r := Register(cfg, st, email, true, issued);
      && r.result.Ok?
      && r.result.value.verificationToken == issued.verificationToken
      && r.after.outbox == st.outbox + [Mail(email, issued.verificationToken)]
      && |r.after.accounts| == |st.accounts| + 1
      && r.after.accounts[..|st.accounts|] == st.accounts
      && var a := r.after.accounts[|st.accounts|];
         && a.id == issued.id && a.email == email && a.passwordHash == issued.passwordHash
         && !a.verify && a.verificationToken == Some(issued.verificationToken)
         && a.token == None && a.subscription == cfg.defaultSubscription
         && a.avatarURL == cfg.gravatarUrl(email)
  {
  }

  /** The verification mail goes out before the insert: when the insert throws
      on an id already in the collection, the mail has been sent all the same,
      and no account was added. */
  lemma RegisterMailsBeforeInsert(cfg: Config, st: State, email: string, issued: Fresh, i: nat)
    requires !EmailTaken(st.accounts, email)
    requires i < |st.accounts| && st.accounts[i].id == issued.id
    ensures var r := Register(cfg, st, email, true, issued);
      && r.result == Fail(Internal)
      && r.after == st.(outbox := st.outbox + [Mail(email, issued.verificationToken)])
  {
    assert Matches(st.accounts[i], ById(issued.id));
  }

  /** Registering one email twice: the second call is refused with Conflict
      and the account the first call created is left as it is. */
  lemma RegisterTwiceConflicts(cfg: Config, st: State, email: string, first: Fresh, second: Fresh)
    requires Register(cfg, st, email, true, first).result.Ok?
    ensures var r1 := Register(cfg, st, email, true, first);
      Register(cfg, r1.after, email, true, second) == Reply(Fail(Conflict), r1.after)
  {
    var r1 := Register(cfg, st, email, true, first);
    assert r1.after.accounts[|st.accounts|].email == email;
    RegisterRefusals(cfg, r1.after, email, true, second);
  }

  // ----- verify -----

  /** A held verification token verifies the first account holding it: that
      account's `verify` becomes true and its token null, and nothing else in
      the store changes. */
  lemma VerifyConsumesToken(st: State, t: string, i: nat)
    requires WellFormed(st.accounts)
    requires i < |st.accounts| && st.accounts[i].verificationToken == Some(t)
    requires forall j :: 0 <= j < i ==> st.accounts[j].verificationToken != Some(t)
    ensures var r := Users.Verify(st, t);
      && r.result.Ok?
      && WritesOnly(st.accounts, r.after.accounts, st.accounts[i].id, {Verify, VerificationToken})
      && r.after.accounts[i].verify && r.after.accounts[i].verificationToken == None
  {
    assert Matches(st.accounts[i], ByVerificationToken(t));
  }

  /** Only one account holds the token. */
  predicate SoleHolder(accs: seq<Account>, t: string, i: nat)
  {
    i < |accs| && accs[i].verificationToken == Some(t)
    && forall j :: 0 <= j < |accs| && j != i ==> accs[j].verificationToken != Some(t)
  }

  /** A token held by a single account is consumed once: verifying it again
      fails with NotFound and changes nothing. */
  lemma VerifyTwiceNotFound(st: State, t: string, i: nat)
    requires WellFormed(st.accounts) && SoleHolder(st.accounts, t, i)
    ensures var r1 := Users.Verify(st, t);
      r1.result.Ok? && Users.Verify(r1.after, t) == Reply(Fail(NotFound), r1.after)
  {
    VerifyConsumesToken(st, t, i);
    var after := Users.Verify(st, t).after.accounts;
    forall j | 0 <= j < |after|
      ensures after[j].verificationToken != Some(t)
    {
      if j != i {
        assert st.accounts[j].id != st.accounts[i].id;
        assert after[j] == st.accounts[j];
      }
    }
  }

  // ----- reverify -----

  /** Some account holds the email and its `verify` is the given flag. */
  predicate EmailWithVerify(accs: seq<Account>, email: string, verified: bool)
  {
    exists i :: 0 <= i < |accs| && accs[i].email == email && accs[i].verify == verified
  }

  /** reverify answers NotFound exactly when no account holds the email,
      AlreadyVerified exactly when its account is verified, and succeeds
      exactly when its account is not; the collection never changes. */
  lemma ReverifyOutcomes(st: State, email: string, freshToken: string)
    requires UniqueEmails(st.accounts)
    ensures var r := Reverify(st, email, true, freshToken);
      && (r.result == Fail(NotFound) <==> !EmailTaken(st.accounts, email))
      && (r.result == Fail(AlreadyVerified) <==> EmailWithVerify(st.accounts, email, true))
      && (r.result.Ok? <==> EmailWithVerify(st.accounts, email, false))
      && r.after.accounts == st.accounts
  {
    var f := Find(st.accounts, ByEmail(email));
    if f.Some? {
      var k := f.value;
      assert st.accounts[k].email == email;
      forall j | 0 <= j < |st.accounts| && st.accounts[j].email == email
        ensures j == k
      {
      }
    }
  }

  /** The link in the mail reverify sends is dead: the new token was never
      saved, so verifying with it fails with NotFound (unless some account
      already held that very token). */
  lemma ReverifyLinkIsDead(st: State, email: string, freshToken: string)
    requires forall j :: 0 <= j < |st.accounts| ==> st.accounts[j].verificationToken != Some(freshToken)
    ensures var r := Reverify(st, email, true, freshToken);
      Users.Verify(r.after, freshToken) == Reply(Fail(NotFound), r.after)
  {
  }

  // ----- login -----

  /** Some account holds the email, accepts the password and is verified. */
  predicate CanLogIn(cfg: Config, accs: seq<Account>, email: string, password: string)
  {
    exists i :: 0 <= i < |accs| && accs[i].email == email
      && cfg.validPassword(password, accs[i].passwordHash) && accs[i].verify
  }

  /** A missing account, a wrong password and an unverified account all give
      one and the same reply, Unauthorized with the state unchanged; and that
      reply is given for no other reason. */
  lemma LoginRefusalIsUniform(cfg: Config, st: State, email: string, password: string)
    requires UniqueEmails(st.accounts)
    ensures !CanLogIn(cfg, st.accounts, email, password) <==>
      Login(cfg, st, email, password, true) == Reply(Fail(Unauthorized), st)
  {
    var f := Find(st.accounts, ByEmail(email));
    if f.Some? {
      var k := f.value;
      forall j | 0 <= j < |st.accounts| && st.accounts[j].email == email
        ensures j == k
      {
      }
      if cfg.validPassword(password, st.accounts[k].passwordHash) && st.accounts[k].verify {
        assert CanLogIn(cfg, st.accounts, email, password);
      }
    }
  }

  /** A successful login stores exactly the token it answers with on the
      account of the email and writes no other field and no other account;
      it succeeds whenever the credentials are good and signing does not throw. */
  lemma LoginStoresToken(cfg: Config, st: State, email: string, password: string, i: nat)
    requires WellFormed(st.accounts)
    requires i < |st.accounts| && st.accounts[i].email == email
    ensures var r := Login(cfg, st, email, password, true);
      && (r.result.Ok? ==>
            && r.result.value.id == st.accounts[i].id
            && WritesOnly(st.accounts, r.after.accounts, st.accounts[i].id, {Token})
            && r.after.accounts[i].token == Some(r.result.value.token))
      && (cfg.validPassword(password, st.accounts[i].passwordHash) && st.accounts[i].verify
          && cfg.sign(Claims(st.accounts[i].id, email, st.accounts[i].subscription)).Some?
          ==> r.result.Ok?)
  {
    var k := Find(st.accounts, ByEmail(email)).value;
    assert st.accounts[k].email == email;
  }

  // ----- logout and subscription -----

  /** logout writes only the token of the caller's account, and sets it to null. */
  lemma LogoutClearsToken(st: State, id: Id)
    requires UniqueIds(st.accounts)
    ensures var after := Logout(st, id, true).after.accounts;
      && WritesOnly(st.accounts, after, id, {Token})
      && forall j :: 0 <= j < |after| && after[j].id == id ==> after[j].token == None
  {
  }

  /** Logging out twice leaves the state logging out once leaves. */
  lemma LogoutIdempotent(st: State, id: Id, bodyValid: bool)
    ensures var r := Logout(st, id, bodyValid);
      Logout(r.after, id, bodyValid) == r
  {
    UpdateByIdIdempotent(st.accounts, id, SetToken(None));
  }

  /** updateSubscription writes only the subscription of the caller's account. */
  lemma UpdateSubscriptionWritesOnlySubscription(st: State, id: Id, subscription: string)
    requires UniqueIds(st.accounts)
    ensures var after := UpdateSubscription(st, id, subscription, true).after.accounts;
      && WritesOnly(st.accounts, after, id, {Subscription})
      && forall j :: 0 <= j < |after| && after[j].id == id ==> after[j].subscription == subscription
  {
  }

  // ----- updateAvatar -----

  /** A successful upload, with the listing `readdir` gives, leaves exactly one
      stored file whose name starts with the id, `{id}_{originalname}`; files
      of other names are untouched; the account's avatarURL, and only that
      field, becomes the corrected URL `{base}/avatars/{name}` (see AvatarUrl). */
  lemma AvatarReplaced(cfg: Config, st: State, id: Id, originalname: string, tmpFile: string,
                       listing: seq<string>)
    requires UniqueIds(st.accounts) && tmpFile in st.uploads && Lists(listing, st.avatars)
    ensures var r := UpdateAvatar(cfg, st, id, originalname, tmpFile, listing, true, true, true);
      var name := AvatarName(id, originalname);
      && r.result == Ok(AvatarUrl(cfg.baseUrl, name))
      && (forall f :: f in r.after.avatars && StartsWith(f, id) <==> f == name)
      && (forall f :: !StartsWith(f, id) ==> (f in r.after.avatars <==> f in st.avatars))
      && WritesOnly(st.accounts, r.after.accounts, id, {AvatarURL})
      && (forall j :: 0 <= j < |r.after.accounts| && r.after.accounts[j].id == id ==>
            r.after.accounts[j].avatarURL == r.result.value)
      && r.after.uploads == st.uploads - {tmpFile}
  {
  }

  /** An image that does not decode fails the upload before the directory is
      scanned: no stored file is deleted, the account keeps its avatarURL,
      and the temporary file is gone. */
  lemma AvatarDecodeFailureKeepsFiles(cfg: Config, st: State, id: Id, originalname: string,
                                      tmpFile: string, listing: seq<string>, writes: bool)
    ensures var r := UpdateAvatar(cfg, st, id, originalname, tmpFile, listing, true, false, writes);
      && r.result == Fail(Internal)
      && r.after == st.(uploads := st.uploads - {tmpFile})
  {
  }

  /** A write that throws after the scan leaves the account with no stored
      avatar file at all, its avatarURL unchanged, and no temporary file. */
  lemma AvatarWriteFailureLeavesNone(cfg: Config, st: State, id: Id, originalname: string, tmpFile: string,
                                     listing: seq<string>)
    requires tmpFile in st.uploads && Lists(listing, st.avatars)
    ensures var r := UpdateAvatar(cfg, st, id, originalname, tmpFile, listing, true, true, false);
      && r.result == Fail(Internal)
      && r.after.accounts == st.accounts
      && (forall f :: f in r.after.avatars ==> !StartsWith(f, id))
      && (forall f :: !StartsWith(f, id) ==> (f in r.after.avatars <==> f in st.avatars))
      && tmpFile !in r.after.uploads
  {
  }

  /** A rejected filename returns before the cleanup: the temporary file stays. */
  lemma AvatarRejectedNameKeepsUpload(cfg: Config, st: State, id: Id, originalname: string,
                                      tmpFile: string, listing: seq<string>, decodes: bool, writes: bool)
    ensures var r := UpdateAvatar(cfg, st, id, originalname, tmpFile, listing, false, decodes, writes);
      && r == Reply(Fail(ValidationError), st)
      && (tmpFile in st.uploads ==> tmpFile in r.after.uploads)
  {
  }

  // ----- remove -----

  /** remove deletes the caller's account and keeps every other account; the
      stored avatar files, the caller's included, stay on disk. */
  lemma RemoveDeletesAccount(st: State, id: Id)
    requires UniqueIds(st.accounts)
    ensures var r := Remove(st, id);
      && (forall j :: 0 <= j < |r.after.accounts| ==> r.after.accounts[j].id != id)
      && (forall a :: a in st.accounts && a.id != id ==> a in r.after.accounts)
      && (forall a :: a in r.after.accounts ==> a in st.accounts)
      && r.after.avatars == st.avatars
  {
  }

  // ----- whole lifecycle -----

  /** register, verify with the mailed token, login with the registered
      password, logout: the account ends verified, with no session token. */
  lemma RegisterVerifyLoginLogout(cfg: Config, st: State, email: string, password: string, issued: Fresh)
    requires WellFormed(st.accounts)
    requires !EmailTaken(st.accounts, email)
    requires forall j :: 0 <= j < |st.accounts| ==> st.accounts[j].id != issued.id
    requires forall j :: 0 <= j < |st.accounts| ==> st.accounts[j].verificationToken != Some(issued.verificationToken)
    requires cfg.validPassword(password, issued.passwordHash)
    requires cfg.sign(Claims(issued.id, email, cfg.defaultSubscription)).Some?
    ensures var s1 := Register(cfg, st, email, true, issued);
      var s2 := Users.Verify(s1.after, issued.verificationToken);
      var s3 := Login(cfg, s2.after, email, password, true);
      var s4 := Logout(s3.after, issued.id, true);
      var n := |st.accounts|;
      && s1.result.Ok? && s2.result.Ok? && s3.result.Ok? && s4.result.Ok?
      && |s4.after.accounts| == n + 1
      && s4.after.accounts[n].id == issued.id
      && s4.after.accounts[n].verify
      && s4.after.accounts[n].verificationToken == None
      && s4.after.accounts[n].token == None
  {
    var n := |st.accounts|;
    RegisterAddsOneAccount(cfg, st, email, issued);
    var s1 := Register(cfg, st, email, true, issued);
    assert SoleHolder(s1.after.accounts, issued.verificationToken, n) by {
      forall j | 0 <= j < n
        ensures s1.after.accounts[j].verificationToken != Some(issued.verificationToken)
      {
        assert s1.after.accounts[j] == st.accounts[j];
      }
    }
    VerifyConsumesToken(s1.after, issued.verificationToken, n);
    var s2 := Users.Verify(s1.after, issued.verificationToken);
    var a2 := s2.after.accounts[n];
    assert Frame(s1.after.accounts[n], a2, {Verify, VerificationToken});
    assert Get(s1.after.accounts[n], Email) == Get(a2, Email);
    assert Get(s1.after.accounts[n], PasswordHash) == Get(a2, PasswordHash);
    assert Get(s1.after.accounts[n], Subscription) == Get(a2, Subscription);
    LoginStoresToken(cfg, s2.after, email, password, n);
    var s3 := Login(cfg, s2.after, email, password, true);
    assert Frame(a2, s3.after.accounts[n], {Token});
    assert Get(a2, Verify) == Get(s3.after.accounts[n], Verify);
    assert Get(a2, VerificationToken) == Get(s3.after.accounts[n], VerificationToken);
    LogoutClearsToken(s3.after, issued.id);
    var s4 := Logout(s3.after, issued.id, true);
    assert Frame(s3.after.accounts[n], s4.after.accounts[n], {Token});
    assert Get(s3.after.accounts[n], Verify) == Get(s4.after.accounts[n], Verify);
    assert Get(s3.after.accounts[n], VerificationToken) == Get(s4.after.accounts[n], VerificationToken);
  }

  /** Every account of `after` whose id was in `before` keeps that account's
      email, and stays verified if it was. */
  predicate KeepsIdentity(before: seq<Account>, after: seq<Account>)
  {
    forall i, j :: 0 <= i < |before| && 0 <= j < |after| && before[i].id == after[j].id ==>
      after[j].email == before[i].email && (before[i].verify ==> after[j].verify)
  }

  lemma UpdateByIdKeepsIdentity(accs: seq<Account>, id: Id, p: Patch)
    requires UniqueIds(accs)
    ensures KeepsIdentity(accs, UpdateById(accs, id, p))
  {
    var after := UpdateById(accs, id, p);
    forall i, j | 0 <= i < |accs| && 0 <= j < |after| && accs[i].id == after[j].id
      ensures after[j].email == accs[i].email && (accs[i].verify ==> after[j].verify)
    {
      ApplyKeepsIdentity(accs[j], p);
      assert accs[j].id == after[j].id;
      assert i == j;
    }
  }

  lemma RemoveByIdKeepsIdentity(accs: seq<Account>, id: Id)
    requires UniqueIds(accs)
    ensures KeepsIdentity(accs, RemoveById(accs, id))
  {
    var after := RemoveById(accs, id);
    forall i, j | 0 <= i < |accs| && 0 <= j < |after| && accs[i].id == after[j].id
      ensures after[j].email == accs[i].email && (accs[i].verify ==> after[j].verify)
    {
      assert after[j] in accs;
      var k :| 0 <= k < |accs| && accs[k] == after[j];
      assert k == i;
    }
  }

  /** No request changes the email of an account or takes back its
      verification: `verify` becomes true once and never reverts. */
  lemma VerificationIsPermanent(cfg: Config, st: State, req: Request)
    requires WellFormed(st.accounts)
    ensures KeepsIdentity(st.accounts, Step(cfg, st, req).accounts)
  {
    var accs := st.accounts;
    match req
    case SignUp(email, bodyValid, issued) =>
      var after := Step(cfg, st, req).accounts;
      if after != accs {
        forall i, j | 0 <= i < |accs| && 0 <= j < |after| && accs[i].id == after[j].id
          ensures after[j].email == accs[i].email && (accs[i].verify ==> after[j].verify)
        {
          assert Find(accs, ById(issued.id)).None?;
          if j < |accs| {
            assert after[j] == accs[j];
            assert i == j;
          }
        }
      }
    case ConfirmEmail(t) =>
      var found := Find(accs, ByVerificationToken(t));
      if found.Some? {
        UpdateByIdKeepsIdentity(accs, accs[found.value].id, MarkVerified);
      }
    case ResendVerification(_, _, _) =>
    case LogIn(email, password, bodyValid) =>
      if Login(cfg, st, email, password, bodyValid).result.Ok? {
        var k := Find(accs, ByEmail(email)).value;
        var token := Login(cfg, st, email, password, bodyValid).result.value.token;
        UpdateByIdKeepsIdentity(accs, accs[k].id, SetToken(Some(token)));
      }
    case LogOut(id, bodyValid) =>
      UpdateByIdKeepsIdentity(accs, id, SetToken(None));
    case ChangeSubscription(id, s, bodyValid) =>
      UpdateByIdKeepsIdentity(accs, id, SetSubscription(s));
    case UploadAvatar(id, name, tmp, listing, nameValid, decodes, writes) =>
      UpdateByIdKeepsIdentity(accs, id, SetAvatar(AvatarUrl(cfg.baseUrl, AvatarName(id, name))));
    case DeleteAccount(id) =>
      RemoveByIdKeepsIdentity(accs, id);
  }
}
