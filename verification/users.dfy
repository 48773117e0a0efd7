/** The account controllers as transitions over an abstract state: the
    account collection, the avatar directory, the upload directory holding
    the temporary files of uploads, and the verification mails handed to the
    mailer. Each controller takes the state and its request and answers with
    a result and the state after the call. */
module Users {
  import opened Outcome
  import opened Accounts
  import opened Avatars

  /** A verification mail: the address and the token its link carries. */
  datatype Mail = Mail(to: string, verificationToken: string)

  datatype State = State(
    accounts: seq<Account>,
    avatars: set<string>,
    uploads: set<string>,
    outbox: seq<Mail>)

  /** The claims a session token is signed over. */
  datatype Claims = Claims(id: Id, email: string, subscription: string)

  /** Process-wide configuration and the foreign libraries, read as functions:
      the server's base address, the schema's default subscription, the
      gravatar URL of an email, the password check of a stored hash, and the
      signing of session claims with the secret (None when signing throws). */
  datatype Config = Config(
    baseUrl: string,
    defaultSubscription: string,
    gravatarUrl: string -> string,
    validPassword: (string, string) -> bool,
    sign: Claims -> Option<string>)

  /** The values the environment produces for one registration: the new
      document id, the salted hash of the password, and the `nanoid` token. */
  datatype Fresh = Fresh(id: Id, passwordHash: string, verificationToken: string)

  /** What a controller answers with, and the state it leaves. */
  datatype Reply<+T> = Reply(result: Result<T>, after: State)

  /** The summary a registration answers with; it excludes the password hash. */
  datatype Registered = Registered(
    id: Id, email: string, subscription: string, avatarURL: string, verificationToken: string)

  /** The session a login answers with. */
  datatype Session = Session(token: string, id: Id, email: string, subscription: string)

  /** Some account holds the email. */
  predicate EmailTaken(accs: seq<Account>, email: string)
  {
    exists i :: 0 <= i < |accs| && accs[i].email == email
  }

  /** register: rejects an invalid body and an email in use; otherwise mails
      a fresh verification token and inserts an unverified account with the
      gravatar placeholder. The mail goes out before the insert, so it is
      sent even when the insert throws on a clashing id. */
  function Register(cfg: Config, st: State, email: string, bodyValid: bool, issued: Fresh): (r: Reply<Registered>)
    ensures r.after.avatars == st.avatars && r.after.uploads == st.uploads
    ensures r.result.Fail? ==> r.after.accounts == st.accounts
    ensures r.result.Ok? ==> !EmailTaken(st.accounts, email)
    ensures WellFormed(st.accounts) ==> WellFormed(r.after.accounts)
    ensures !bodyValid ==> r == Reply(Fail(ValidationError), st)
  {
    if !bodyValid then Reply(Fail(ValidationError), st)
    else if Find(st.accounts, ByEmail(email)).Some? then Reply(Fail(Conflict), st)
    else
      var mailed := st.(outbox := st.outbox + [Mail(email, issued.verificationToken)]);
      if Find(st.accounts, ById(issued.id)).Some? then Reply(Fail(Internal), mailed)
      else
        var avatarURL := cfg.gravatarUrl(email);
        var account := Account(issued.id, email, issued.passwordHash, false,
                               Some(issued.verificationToken), None, cfg.defaultSubscription, avatarURL);
        var accs := st.accounts + [account];
        assert forall i :: 0 <= i < |st.accounts| ==> accs[i] == st.accounts[i];
        Reply(Ok(Registered(issued.id, email, cfg.defaultSubscription, avatarURL, issued.verificationToken)),
              mailed.(accounts := accs))
  }

  /** verify: the account holding the token becomes verified and loses the token. */
  function Verify(st: State, verificationToken: string): (r: Reply<()>)
    ensures r.after.avatars == st.avatars && r.after.uploads == st.uploads && r.after.outbox == st.outbox
    ensures r.result.Ok? <==> exists i :: 0 <= i < |st.accounts| && st.accounts[i].verificationToken == Some(verificationToken)
    ensures r.result.Fail? ==> r == Reply(Fail(NotFound), st)
    ensures WellFormed(st.accounts) ==> WellFormed(r.after.accounts)
  {
    match Find(st.accounts, ByVerificationToken(verificationToken))
    case None => Reply(Fail(NotFound), st)
    case Some(i) =>
      Reply(Ok(()), st.(accounts := UpdateById(st.accounts, st.accounts[i].id, MarkVerified)))
  }

  /** reverify: refuses an invalid body, an unknown email and a verified
      account; otherwise mails a new token. The token is set on the loaded
      document only and never saved, so the collection is left as it was. */
  function Reverify(st: State, email: string, bodyValid: bool, freshToken: string): (r: Reply<()>)
    ensures r.after.accounts == st.accounts
    ensures r.after.avatars == st.avatars && r.after.uploads == st.uploads
    ensures r.result.Ok? ==> r.after.outbox == st.outbox + [Mail(email, freshToken)]
    ensures r.result.Fail? ==> r.after == st
    ensures !bodyValid ==> r == Reply(Fail(ValidationError), st)
  {
    if !bodyValid then Reply(Fail(ValidationError), st)
    else match Find(st.accounts, ByEmail(email))
      case None => Reply(Fail(NotFound), st)
      case Some(i) =>
        if st.accounts[i].verify then Reply(Fail(AlreadyVerified), st)
        else Reply(Ok(()), st.(outbox := st.outbox + [Mail(email, freshToken)]))
  }

  /** login: a missing account, a wrong password and an unverified account
      all give the same refusal; otherwise a token is signed over the
      account's id, email and subscription and stored on the account. */
  function Login(cfg: Config, st: State, email: string, password: string, bodyValid: bool): (r: Reply<Session>)
    ensures r.after.avatars == st.avatars && r.after.uploads == st.uploads && r.after.outbox == st.outbox
    ensures r.result.Fail? ==> r.after == st
    ensures r.result.Ok? ==> r.result.value.email == email
    ensures WellFormed(st.accounts) ==> WellFormed(r.after.accounts)
    ensures !bodyValid ==> r == Reply(Fail(ValidationError), st)
  {
    if !bodyValid then Reply(Fail(ValidationError), st)
    else
      var found := Find(st.accounts, ByEmail(email));
      if found.None? || !cfg.validPassword(password, st.accounts[found.value].passwordHash)
         || !st.accounts[found.value].verify
      then Reply(Fail(Unauthorized), st)
      else
        var a := st.accounts[found.value];
        match cfg.sign(Claims(a.id, a.email, a.subscription))
        case None => Reply(Fail(Internal), st)
        case Some(token) =>
          Reply(Ok(Session(token, a.id, a.email, a.subscription)),
                st.(accounts := UpdateById(st.accounts, a.id, SetToken(Some(token)))))
  }

  /** logout: clears the stored session token of the caller. */
  function Logout(st: State, id: Id, bodyValid: bool): (r: Reply<()>)
    ensures r.after.avatars == st.avatars && r.after.uploads == st.uploads && r.after.outbox == st.outbox
    ensures r.result.Ok? <==> bodyValid
    ensures !bodyValid ==> r == Reply(Fail(ValidationError), st)
    ensures WellFormed(st.accounts) ==> WellFormed(r.after.accounts)
  {
    if !bodyValid then Reply(Fail(ValidationError), st)
    else Reply(Ok(()), st.(accounts := UpdateById(st.accounts, id, SetToken(None))))
  }

  /** updateSubscription: writes the requested tier on the caller's account. */
  function UpdateSubscription(st: State, id: Id, subscription: string, bodyValid: bool): (r: Reply<()>)
    ensures r.after.avatars == st.avatars && r.after.uploads == st.uploads && r.after.outbox == st.outbox
    ensures r.result.Ok? <==> bodyValid
    ensures !bodyValid ==> r == Reply(Fail(ValidationError), st)
    ensures WellFormed(st.accounts) ==> WellFormed(r.after.accounts)
  {
    if !bodyValid then Reply(Fail(ValidationError), st)
    else Reply(Ok(()), st.(accounts := UpdateById(st.accounts, id, SetSubscription(subscription))))
  }

  /** updateAvatar: checks the original filename, decodes the temporary
      upload, deletes the caller's stored avatars, writes the resized image as
      `{id}_{originalname}`, removes the temporary file and records the public
      URL on the account. A failure after the filename check still removes the
      temporary file; a rejected filename leaves it in place. A temporary file
      that is not there cannot be decoded either. `listing` is what
      `fs.readdir` answers for the avatar directory. */
  function UpdateAvatar(cfg: Config, st: State, id: Id, originalname: string, tmpFile: string,
                        listing: seq<string>, nameValid: bool, decodes: bool, writes: bool): (r: Reply<string>)
    ensures r.after.outbox == st.outbox
    ensures r.result.Fail? ==> r.after.accounts == st.accounts
    ensures nameValid ==> tmpFile !in r.after.uploads
    ensures !nameValid ==> r == Reply(Fail(ValidationError), st)
    ensures r.result.Ok? ==> nameValid && decodes && writes && tmpFile in st.uploads
    ensures WellFormed(st.accounts) ==> WellFormed(r.after.accounts)
  {
    if !nameValid then Reply(Fail(ValidationError), st)
    else
      var cleaned := st.uploads - {tmpFile};
      if tmpFile !in st.uploads || !decodes then Reply(Fail(Internal), st.(uploads := cleaned))
      else
        var purged := DeleteMatching(st.avatars, listing, id);
        if !writes then Reply(Fail(Internal), st.(avatars := purged, uploads := cleaned))
        else
          var name := AvatarName(id, originalname);
          var url := AvatarUrl(cfg.baseUrl, name);
          Reply(Ok(url), st.(accounts := UpdateById(st.accounts, id, SetAvatar(url)),
                             avatars := purged + {name},
                             uploads := cleaned))
  }

  /** remove: deletes the caller's account; its avatar file stays on disk. */
  function Remove(st: State, id: Id): (r: Reply<Id>)
    ensures r.result == Ok(id)
    ensures r.after.avatars == st.avatars && r.after.uploads == st.uploads && r.after.outbox == st.outbox
    ensures WellFormed(st.accounts) ==> WellFormed(r.after.accounts)
  {
    Reply(Ok(id), st.(accounts := RemoveById(st.accounts, id)))
  }

  /** One request to any of the controllers, with the oracle verdicts it needs. */
  datatype Request =
    | SignUp(email: string, bodyValid: bool, issued: Fresh)
    | ConfirmEmail(verificationToken: string)
    | ResendVerification(email: string, bodyValid: bool, freshToken: string)
    | LogIn(email: string, password: string, bodyValid: bool)
    | LogOut(id: Id, bodyValid: bool)
    | ChangeSubscription(id: Id, subscription: string, bodyValid: bool)
    | UploadAvatar(id: Id, originalname: string, tmpFile: string, listing: seq<string>,
                   nameValid: bool, decodes: bool, writes: bool)
    | DeleteAccount(id: Id)

  /** The state after serving one request. */
  function Step(cfg: Config, st: State, req: Request): (after: State)
    ensures WellFormed(st.accounts) ==> WellFormed(after.accounts)
  {
    match req
    case SignUp(email, bodyValid, issued) => Register(cfg, st, email, bodyValid, issued).after
    case ConfirmEmail(t) => Verify(st, t).after
    case ResendVerification(email, bodyValid, t) => Reverify(st, email, bodyValid, t).after
    case LogIn(email, password, bodyValid) => Login(cfg, st, email, password, bodyValid).after
    case LogOut(id, bodyValid) => Logout(st, id, bodyValid).after
    case ChangeSubscription(id, s, bodyValid) => UpdateSubscription(st, id, s, bodyValid).after
    case UploadAvatar(id, name, tmp, listing, nameValid, decodes, writes) =>
      UpdateAvatar(cfg, st, id, name, tmp, listing, nameValid, decodes, writes).after
    case DeleteAccount(id) => Remove(st, id).after
  }
}
