/** The persisted account records, the partial writes the controllers send to
    the store, and the queries (`findOne`) they read it with. The collection is
    a sequence in natural order: `findOne` answers with the first match. */
module Accounts {
  import opened Outcome

  type Id = string

  datatype Account = Account(
    id: Id,
    email: string,
    passwordHash: string,
    verify: bool,
    verificationToken: Option<string>,
    token: Option<string>,
    subscription: string,
    avatarURL: string)

  /** The mutable fields of an account (the id is not among them). */
  datatype Field = Email | PasswordHash | Verify | VerificationToken | Token | Subscription | AvatarURL

  datatype Value = Text(text: string) | Flag(flag: bool) | Nullable(nullable: Option<string>)

  /** Reads one field, so that frames can be stated field by field. */
  function Get(a: Account, f: Field): Value
  {
    match f
    case Email => Text(a.email)
    case PasswordHash => Text(a.passwordHash)
    case Verify => Flag(a.verify)
    case VerificationToken => Nullable(a.verificationToken)
    case Token => Nullable(a.token)
    case Subscription => Text(a.subscription)
    case AvatarURL => Text(a.avatarURL)
  }

  /** `b` is the same account as `a` and differs from it at most in the fields of `changed`. */
  predicate Frame(a: Account, b: Account, changed: set<Field>)
  {
    a.id == b.id && forall f :: f !in changed ==> Get(a, f) == Get(b, f)
  }

  /** The partial updates the controllers hand to the store. */
  datatype Patch =
    | MarkVerified                          // { verify: true, verificationToken: null }
    | SetToken(token: Option<string>)       // { token } on login, { token: null } on logout
    | SetSubscription(subscription: string) // { subscription }
    | SetAvatar(url: string)                // { avatarURL }

  /** The fields a patch writes. */
  function Writes(p: Patch): set<Field>
  {
    match p
    case MarkVerified => {Verify, VerificationToken}
    case SetToken(_) => {Token}
    case SetSubscription(_) => {Subscription}
    case SetAvatar(_) => {AvatarURL}
  }

  /** Applies a partial update to one record: the fields it names get its
      values, every other field is left alone. */
  function Apply(a: Account, p: Patch): (b: Account)
    ensures Frame(a, b, Writes(p))
    ensures p.MarkVerified? ==> b.verify && b.verificationToken == None
    ensures p.SetToken? ==> b.token == p.token
    ensures p.SetSubscription? ==> b.subscription == p.subscription
    ensures p.SetAvatar? ==> b.avatarURL == p.url
  {
    match p
    case MarkVerified => a.(verify := true, verificationToken := None)
    case SetToken(t) => a.(token := t)
    case SetSubscription(s) => a.(subscription := s)
    case SetAvatar(u) => a.(avatarURL := u)
  }

  /** The queries the controllers run: by id, `{ email }` and `{ verificationToken }`. */
  datatype Key = ById(id: Id) | ByEmail(email: string) | ByVerificationToken(verificationToken: string)

  predicate Matches(a: Account, k: Key)
  {
    match k
    case ById(id) => a.id == id
    case ByEmail(e) => a.email == e
    // a null token never equals the string the request carries
    case ByVerificationToken(t) => a.verificationToken == Some(t)
  }

  /** The position of the first account the query matches, or None when none does. */
  function Find(accs: seq<Account>, k: Key): (r: Option<nat>)
    ensures r.Some? ==> r.value < |accs| && Matches(accs[r.value], k)
    ensures r.Some? ==> forall j :: 0 <= j < r.value ==> !Matches(accs[j], k)
    ensures r.None? ==> forall j :: 0 <= j < |accs| ==> !Matches(accs[j], k)
  {
    if |accs| == 0 then None
    else if Matches(accs[0], k) then Some(0)
    else match Find(accs[1..], k)
      case None => None
      case Some(i) => Some(i + 1)
  }

  /** Two collections that hold the same ids at the same positions answer an id query alike. */
  lemma FindByIdFollowsIds(accs: seq<Account>, accs': seq<Account>, id: Id)
    requires |accs| == |accs'|
    requires forall j :: 0 <= j < |accs| ==> accs[j].id == accs'[j].id
    ensures Find(accs, ById(id)) == Find(accs', ById(id))
  {
    var r, r' := Find(accs, ById(id)), Find(accs', ById(id));
    if r.Some? && r'.Some? {
      if r.value < r'.value {
        assert Matches(accs'[r.value], ById(id));
      } else if r'.value < r.value {
        assert Matches(accs[r'.value], ById(id));
      }
    } else if r.Some? {
      assert Matches(accs'[r.value], ById(id));
    } else if r'.Some? {
      assert Matches(accs[r'.value], ById(id));
    }
  }

  predicate UniqueIds(accs: seq<Account>)
  {
    forall i, j :: 0 <= i < j < |accs| ==> accs[i].id != accs[j].id
  }

  predicate UniqueEmails(accs: seq<Account>)
  {
    forall i, j :: 0 <= i < j < |accs| ==> accs[i].email != accs[j].email
  }

  /** A verified account holds no pending verification token. */
  predicate VerifiedClean(a: Account)
  {
    a.verify ==> a.verificationToken == None
  }

  /** The invariant of the collection: one account per id, one account per
      email, and no verified account with a pending verification token. */
  predicate WellFormed(accs: seq<Account>)
  {
    && UniqueIds(accs)
    && UniqueEmails(accs)
    && forall i :: 0 <= i < |accs| ==> VerifiedClean(accs[i])
  }

  /** `after` is `before` with only the fields `changed` of the account `id`
      rewritten: every other account, and every other field, is as it was. */
  predicate WritesOnly(before: seq<Account>, after: seq<Account>, id: Id, changed: set<Field>)
  {
    && |after| == |before|
    && (forall j :: 0 <= j < |before| && before[j].id != id ==> after[j] == before[j])
    && (forall j :: 0 <= j < |before| && before[j].id == id ==> Frame(before[j], after[j], changed))
  }

  /** Applies a patch to the account with the given id, as `usersService.update`
      does; a missing id leaves the collection as it is. */
  function UpdateById(accs: seq<Account>, id: Id, p: Patch): (r: seq<Account>)
    ensures WritesOnly(accs, r, id, Writes(p))
    ensures forall j :: 0 <= j < |accs| ==> r[j] == accs[j] || r[j] == Apply(accs[j], p)
    ensures UniqueIds(accs) ==> forall j :: 0 <= j < |accs| && accs[j].id == id ==> r[j] == Apply(accs[j], p)
  {
    match Find(accs, ById(id))
    case None => accs
    case Some(i) => accs[i := Apply(accs[i], p)]
  }

  /** Deletes the account with the given id, as `usersService.remove` does. */
  function RemoveById(accs: seq<Account>, id: Id): (r: seq<Account>)
    ensures forall a :: a in r ==> a in accs
    ensures forall a :: a in accs && a.id != id ==> a in r
    ensures UniqueIds(accs) ==> forall j :: 0 <= j < |r| ==> r[j].id != id
    ensures |r| == if Find(accs, ById(id)).Some? then |accs| - 1 else |accs|
    ensures Find(accs, ById(id)).None? ==> r == accs
    ensures Find(accs, ById(id)).Some? ==>
      exists i :: 0 <= i < |accs| && accs[i].id == id && r == accs[..i] + accs[i + 1..]
  {
    match Find(accs, ById(id))
    case None => accs
    case Some(i) =>
      var r := accs[..i] + accs[i + 1..];
      assert forall a :: a in accs && a.id != id ==> a in r by {
        forall a | a in accs && a.id != id
          ensures a in r
        {
          var k :| 0 <= k < |accs| && accs[k] == a;
          if k < i { assert r[k] == a; } else { assert r[k - 1] == a; }
        }
      }
      r
  }

  /** Every patch keeps the account's identity: its id and email are never
      written, and a verified account stays verified. */
  lemma ApplyKeepsIdentity(a: Account, p: Patch)
    ensures Apply(a, p).id == a.id && Apply(a, p).email == a.email
    ensures a.verify ==> Apply(a, p).verify
  {
    var b := Apply(a, p);
    assert Get(a, Email) == Get(b, Email);
    if !p.MarkVerified? {
      assert Get(a, Verify) == Get(b, Verify);
    }
  }

  /** Writing the same patch twice to the same id is writing it once. */
  lemma UpdateByIdIdempotent(accs: seq<Account>, id: Id, p: Patch)
    ensures UpdateById(UpdateById(accs, id, p), id, p) == UpdateById(accs, id, p)
  {
    var once := UpdateById(accs, id, p);
    forall j | 0 <= j < |accs|
      ensures accs[j].id == once[j].id
    {
      ApplyKeepsIdentity(accs[j], p);
    }
    FindByIdFollowsIds(accs, once, id);
    match Find(accs, ById(id))
    case None =>
    case Some(i) =>
      assert Apply(Apply(accs[i], p), p) == Apply(accs[i], p);
  }
}
