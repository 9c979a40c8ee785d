/** CompanyController: search, creation, the owner-only update, joining with
    the join password, leaving, and the admin-only member management. */
module CompanyController {
  import opened Common
  import opened Schema
  import opened UserModel
  import opened ChannelModel
  import opened CompanyModel
  import opened Http

  const SearchLimit: nat := 20
  const DefaultChannelName: string := "Allgemein"
  const DefaultChannelDescription: string := "Allgemeiner Kanal für alle Mitglieder"

  /** `name`: 'min:2', 'max:255'. */
  predicate NameValid(name: string) {
    2 <= |name| <= 255
  }

  /** `join_password`: 'min:6', 'max:100'. */
  predicate PasswordValid(password: string) {
    6 <= |password| <= 100
  }

  // ---------------------------------------------------------------------------
  // Search
  // ---------------------------------------------------------------------------

  /** `name LIKE %q% OR slug LIKE %q%`, with a null slug matching nothing. */
  predicate Matches(row: CompanyRow, q: string) {
    Contains(row.name, q) || (row.slug.Some? && Contains(row.slug.value, q))
  }

  /** Every matching row, in table order. */
  function Hits(rows: seq<(Id, CompanyRow)>, q: string): (r: seq<(Id, CompanyRow)>)
    ensures forall x :: x in r <==> x in rows && Matches(x.1, q)
  {
    Filter(rows, (y: (Id, CompanyRow)) => Matches(y.1, q))
  }

  /** `search`: a term of 2 to 100 characters; the first 20 matches in table
      order. */
  function Search(rows: seq<(Id, CompanyRow)>, q: string): (r: Response<seq<(Id, CompanyRow)>>)
    ensures !(2 <= |q| <= 100) ==> r == Deny(Unprocessable)
    ensures 2 <= |q| <= 100 ==> r.status == Ok && r.body.Some?
    ensures r.body.Some? ==> |r.body.value| <= SearchLimit
    ensures r.body.Some? ==> forall x :: x in r.body.value ==> x in rows && Matches(x.1, q)
    ensures r.body.Some? && |Hits(rows, q)| <= SearchLimit ==> r.body.value == Hits(rows, q)
    ensures r.body.Some? && |Hits(rows, q)| > SearchLimit ==> r.body.value == Hits(rows, q)[..SearchLimit]
  {
    if !(2 <= |q| <= 100) then Deny(Unprocessable)
    else
      var hits := Hits(rows, q);
      Answer(if |hits| > SearchLimit then hits[..SearchLimit] else hits)
  }

  // ---------------------------------------------------------------------------
  // Creation and the owner's update
  // ---------------------------------------------------------------------------

  /** An id no row refers to yet, as the auto-increment hands out. */
  predicate FreshCompany(s: State, id: Id) {
    id !in s.companies && ChannelsOf(s, id) == {} &&
    forall k :: k in s.companyMembers ==> k.0 != id
  }

  /** `store`: the caller becomes owner and 'admin', and the company gets one
      public channel 'Allgemein' whose only member is the caller. A name whose
      slug another company already has fails at the unique index (500) before
      anything is written. */
  function Store(s: State, user: Id, name: string, password: string, hash: string -> string,
                 slugify: string -> string, companyId: Id, channelId: Id): (o: Outcome)
    requires FreshCompany(s, companyId) && channelId !in s.channels
    ensures !NameValid(name) || !PasswordValid(password) ==> o == Refuse(s, Unprocessable)
    ensures NameValid(name) && PasswordValid(password) && SlugTaken(s.companies, Some(slugify(name)), companyId) ==>
              o == Refuse(s, ServerError)
    ensures o.status == Created <==>
              NameValid(name) && PasswordValid(password) && !SlugTaken(s.companies, Some(slugify(name)), companyId)
    ensures o.status == Created ==>
              o.state.companies == s.companies[companyId := CompanyRow(name, SlugOnCreate(name, None, slugify), hash(password), user)] &&
              IsAdminOf(o.state, user, companyId) &&
              (forall u: Id :: IsMemberOf(o.state, u, companyId) <==> u == user) &&
              ChannelsOf(o.state, companyId) == {channelId} &&
              o.state.channels[channelId].name == DefaultChannelName && !o.state.channels[channelId].isPrivate &&
              (forall u: Id :: IsMemberOfChannel(o.state, u, channelId) <==> u == user || IsMemberOfChannel(s, u, channelId))
    ensures o.events == []
  {
    if !NameValid(name) || !PasswordValid(password) then Refuse(s, Unprocessable)
    else if SlugTaken(s.companies, SlugOnCreate(name, None, slugify), companyId) then Refuse(s, ServerError)
    else
      var row := CompanyRow(name, SlugOnCreate(name, None, slugify), hash(password), user);
      Outcome(Founded(s, row, companyId, channelId), Created, [])
  }

  /** The rows `store` writes: the company, its owner as 'admin' member, and
      the default channel with the owner as its member. */
  function Founded(s: State, row: CompanyRow, companyId: Id, channelId: Id): (r: State)
    requires FreshCompany(s, companyId) && channelId !in s.channels
    ensures r.companies == s.companies[companyId := row]
    ensures IsAdminOf(r, row.owner, companyId)
    ensures forall u: Id :: IsMemberOf(r, u, companyId) <==> u == row.owner
    ensures ChannelsOf(r, companyId) == {channelId}
    ensures r.channels[channelId].name == DefaultChannelName && !r.channels[channelId].isPrivate
    ensures forall u: Id :: IsMemberOfChannel(r, u, channelId) <==> u == row.owner || IsMemberOfChannel(s, u, channelId)
  {
    WithDefaultChannel(Incorporated(s, row, companyId), companyId, row.owner, channelId)
  }

  /** The company row and its owner's 'admin' membership. */
  function Incorporated(s: State, row: CompanyRow, companyId: Id): (r: State)
    requires FreshCompany(s, companyId)
    ensures r.companies == s.companies[companyId := row]
    ensures IsAdminOf(r, row.owner, companyId)
    ensures forall u: Id :: IsMemberOf(r, u, companyId) <==> u == row.owner
    ensures r.channels == s.channels && r.channelMembers == s.channelMembers
  {
    AddMember(s.(companies := s.companies[companyId := row]), companyId, row.owner, Admin)
  }

  /** The default channel of a company that has none yet, with the owner as
      its member. */
  function WithDefaultChannel(s: State, companyId: Id, owner: Id, channelId: Id): (r: State)
    requires ChannelsOf(s, companyId) == {} && channelId !in s.channels
    ensures r.companies == s.companies && r.companyMembers == s.companyMembers
    ensures ChannelsOf(r, companyId) == {channelId}
    ensures r.channels[channelId].name == DefaultChannelName && !r.channels[channelId].isPrivate
    ensures forall u: Id :: IsMemberOfChannel(r, u, channelId) <==> u == owner || IsMemberOfChannel(s, u, channelId)
  {
    var channel := ChannelRow(companyId, DefaultChannelName, Some(DefaultChannelDescription), false, owner);
    var s1 := s.(channels := s.channels[channelId := channel]);
    assert ChannelsOf(s1, companyId) == {channelId} by {
      assert forall c :: c in s.channels ==> s.channels[c].company != companyId;
    }
    AddChannelMember(s1, channelId, owner)
  }

  /** Only the owner passes the guard of `update` (and of `uploadLogo`); an
      admin who does not own the company does not. */
  predicate IsOwner(s: State, user: Id, company: Id)
    requires company in s.companies
  {
    s.companies[company].owner == user
  }

  /** The slug an update writes: a new name re-derives it. */
  function NewSlug(row: CompanyRow, name: Option<string>, slugify: string -> string): (r: Option<string>)
    ensures name.None? || name.value == row.name ==> r == row.slug
    ensures name.Some? && name.value != row.name ==> r == Some(slugify(name.value))
  {
    SlugOnUpdate(row.name, if name.Some? then name.value else row.name, row.slug, slugify)
  }

  /** `update`: owner only; each field is optional; a new password is hashed
      and a new name re-derives the slug, which fails at the unique index
      (500) when another company has it. */
  function Update(s: State, user: Id, company: Id, name: Option<string>, password: Option<string>,
                  hash: string -> string, slugify: string -> string): (o: Outcome)
    ensures company !in s.companies ==> o == Refuse(s, NotFound)
    ensures company in s.companies && !IsOwner(s, user, company) ==> o == Refuse(s, Forbidden)
    ensures (company in s.companies && IsOwner(s, user, company) &&
             (name.None? || NameValid(name.value)) && (password.None? || PasswordValid(password.value)) &&
             SlugTaken(s.companies, NewSlug(s.companies[company], name, slugify), company)) ==> o == Refuse(s, ServerError)
    ensures o.status == Ok <==>
              company in s.companies && IsOwner(s, user, company) &&
              (name.None? || NameValid(name.value)) && (password.None? || PasswordValid(password.value)) &&
              !SlugTaken(s.companies, NewSlug(s.companies[company], name, slugify), company)
    ensures o.status == Ok ==>
              var old_ := s.companies[company];
              var newName := if name.Some? then name.value else old_.name;
              o.state == s.(companies := s.companies[company := CompanyRow(
                newName,
                SlugOnUpdate(old_.name, newName, old_.slug, slugify),
                if password.Some? then hash(password.value) else old_.joinPassword,
                old_.owner)])
    ensures o.status != Ok ==> o.state == s
  {
    if company !in s.companies then Refuse(s, NotFound)
    else if !IsOwner(s, user, company) then Refuse(s, Forbidden)
    else if (name.Some? && !NameValid(name.value)) || (password.Some? && !PasswordValid(password.value)) then
      Refuse(s, Unprocessable)
    else if SlugTaken(s.companies, NewSlug(s.companies[company], name, slugify), company) then Refuse(s, ServerError)
    else
      var old_ := s.companies[company];
      var newName := if name.Some? then name.value else old_.name;
      var row := CompanyRow(newName, SlugOnUpdate(old_.name, newName, old_.slug, slugify),
                            if password.Some? then hash(password.value) else old_.joinPassword, old_.owner);
      Outcome(s.(companies := s.companies[company := row]), Ok, [])
  }

  /** Creating a company keeps the slugs unique. */
  lemma StoreKeepsUniqueSlugs(s: State, user: Id, name: string, password: string, hash: string -> string,
                              slugify: string -> string, companyId: Id, channelId: Id)
    requires FreshCompany(s, companyId) && channelId !in s.channels
    requires UniqueSlugs(s.companies)
    ensures UniqueSlugs(Store(s, user, name, password, hash, slugify, companyId, channelId).state.companies)
  {
    if Store(s, user, name, password, hash, slugify, companyId, channelId).status == Created {
      WriteKeepsUniqueSlugs(s.companies, companyId, CompanyRow(name, SlugOnCreate(name, None, slugify), hash(password), user));
    }
  }

  /** Updating a company keeps the slugs unique. */
  lemma UpdateKeepsUniqueSlugs(s: State, user: Id, company: Id, newName: Option<string>, newPassword: Option<string>,
                               hash: string -> string, slugify: string -> string)
    requires UniqueSlugs(s.companies)
    ensures UniqueSlugs(Update(s, user, company, newName, newPassword, hash, slugify).state.companies)
  {
    if Update(s, user, company, newName, newPassword, hash, slugify).status == Ok {
      var old_ := s.companies[company];
      var n := if newName.Some? then newName.value else old_.name;
      WriteKeepsUniqueSlugs(s.companies, company, CompanyRow(n, SlugOnUpdate(old_.name, n, old_.slug, slugify),
        if newPassword.Some? then hash(newPassword.value) else old_.joinPassword, old_.owner));
    }
  }

  /** An admin who is not the owner cannot update the company. */
  lemma AdminIsNotOwner(s: State, user: Id, company: Id, name: Option<string>, password: Option<string>,
                        hash: string -> string, slugify: string -> string)
    requires company in s.companies && IsAdminOf(s, user, company) && s.companies[company].owner != user
    ensures Update(s, user, company, name, password, hash, slugify).status == Forbidden
  {
  }

  // ---------------------------------------------------------------------------
  // Joining and leaving
  // ---------------------------------------------------------------------------

  /** The public channels of a company. */
  function PublicChannelsOf(s: State, company: Id): (cs: set<Id>)
    ensures forall c :: c in cs <==> c in ChannelsOf(s, company) && !s.channels[c].isPrivate
  {
    set c | c in ChannelsOf(s, company) && !s.channels[c].isPrivate
  }

  /** `join`: not for members; the password is required and checked by the
      opaque `checkJoinPassword`; the caller becomes a 'user' member and a
      member of every public channel. */
  function Join(s: State, user: Id, company: Id, password: string, check: (string, string) -> bool): (o: Outcome)
    ensures company !in s.companies ==> o == Refuse(s, NotFound)
    ensures company in s.companies && IsMemberOf(s, user, company) ==> o == Refuse(s, Unprocessable)
    ensures o.status == Ok <==>
              company in s.companies && !IsMemberOf(s, user, company) && password != "" &&
              check(password, s.companies[company].joinPassword)
    ensures o.status != Ok ==> o.state == s
    ensures o.status == Ok ==>
              o.state.companyMembers == s.companyMembers[(company, user) := Member] &&
              (forall c: Id, u: Id :: IsMemberOfChannel(o.state, u, c) <==>
                 IsMemberOfChannel(s, u, c) || (u == user && c in PublicChannelsOf(s, company))) &&
              o.state == s.(companyMembers := o.state.companyMembers, channelMembers := o.state.channelMembers)
  {
    if company !in s.companies then Refuse(s, NotFound)
    else if IsMemberOf(s, user, company) then Refuse(s, Unprocessable)
    else if password == "" || !check(password, s.companies[company].joinPassword) then Refuse(s, Unprocessable)
    else
      var s1 := AddMember(s, company, user, Member);
      var joined := set c | c in PublicChannelsOf(s, company) :: (c, user);
      Outcome(s1.(channelMembers := s1.channelMembers + joined), Ok, [])
  }

  /** A successful join reaches exactly the public channels of the company:
      every one of them, and no private one the caller was not already in. */
  lemma JoinReachesPublicChannels(s: State, user: Id, company: Id, password: string,
                                  check: (string, string) -> bool, c: Id)
    requires Join(s, user, company, password, check).status == Ok
    requires c in ChannelsOf(s, company)
    ensures var s' := Join(s, user, company, password, check).state;
            IsMemberOf(s', user, company) && s'.companyMembers[(company, user)] == Member && !IsAdminOf(s', user, company) &&
            (!s.channels[c].isPrivate ==> IsMemberOfChannel(s', user, c)) &&
            (s.channels[c].isPrivate ==> (IsMemberOfChannel(s', user, c) <==> IsMemberOfChannel(s, user, c)))
  {
  }

  /** `leave`: members only, and never the owner. */
  function Leave(s: State, user: Id, company: Id): (o: Outcome)
    ensures company !in s.companies ==> o == Refuse(s, NotFound)
    ensures company in s.companies && !IsMemberOf(s, user, company) ==> o == Refuse(s, Unprocessable)
    ensures company in s.companies && IsOwner(s, user, company) ==> o == Refuse(s, Unprocessable)
    ensures o.status == Ok <==> company in s.companies && IsMemberOf(s, user, company) && !IsOwner(s, user, company)
    ensures o.status == Ok ==> o.state == RemoveMember(s, company, user)
  {
    if company !in s.companies then Refuse(s, NotFound)
    else if !IsMemberOf(s, user, company) then Refuse(s, Unprocessable)
    else if IsOwner(s, user, company) then Refuse(s, Unprocessable)
    else Outcome(RemoveMember(s, company, user), Ok, [])
  }

  /** `leave` as written: past the guards, `removeMember` throws on the
      company's first channel (see `RemoveMemberAsWritten`), so the request is
      answered 500 after the company membership is already gone. `Store`
      gives every company a channel and the last one cannot be deleted, so
      in practice the guarded path always fails. */
  function LeaveAsWritten(s: State, user: Id, company: Id): (o: Outcome)
    ensures Leave(s, user, company).status != Ok ==> o == Leave(s, user, company)
    ensures Leave(s, user, company).status == Ok && ChannelsOf(s, company) != {} ==>
              o.status == ServerError && !IsMemberOf(o.state, user, company) &&
              o.state.channelMembers == s.channelMembers
    ensures Leave(s, user, company).status == Ok && ChannelsOf(s, company) == {} ==> o == Leave(s, user, company)
  {
    if company !in s.companies then Refuse(s, NotFound)
    else if !IsMemberOf(s, user, company) then Refuse(s, Unprocessable)
    else if IsOwner(s, user, company) then Refuse(s, Unprocessable)
    else
      var (s', threw) := RemoveMemberAsWritten(s, company, user);
      Outcome(s', if threw then ServerError else Ok, [])
  }

  // ---------------------------------------------------------------------------
  // Member management
  // ---------------------------------------------------------------------------

  /** `'role' => ['required', 'in:admin,user']`. */
  function ParseRole(role: string): (r: Option<Role>)
    ensures r.Some? <==> role == "admin" || role == "user"
    ensures r.Some? ==> r.value.Name() == role
  {
    if role == "admin" then Some(Admin) else if role == "user" then Some(Member) else None
  }

  /** `updateMember`: admins only; the owner's role is fixed; the pivot is
      updated only if the target is a member (`updateExistingPivot`). */
  function UpdateMember(s: State, user: Id, company: Id, target: Id, role: string): (o: Outcome)
    ensures company !in s.companies ==> o == Refuse(s, NotFound)
    ensures company in s.companies && !IsAdminOf(s, user, company) ==> o == Refuse(s, Forbidden)
    ensures (company in s.companies && IsAdminOf(s, user, company) && IsOwner(s, target, company)) ==>
              o == Refuse(s, Unprocessable)
    ensures o.status == Ok <==>
              company in s.companies && IsAdminOf(s, user, company) && !IsOwner(s, target, company) &&
              ParseRole(role).Some?
    ensures o.status == Ok && IsMemberOf(s, target, company) ==>
              o.state == s.(companyMembers := s.companyMembers[(company, target) := ParseRole(role).value])
    ensures o.status == Ok && !IsMemberOf(s, target, company) ==> o.state == s
    ensures o.status != Ok ==> o.state == s
  {
    if company !in s.companies then Refuse(s, NotFound)
    else if !IsAdminOf(s, user, company) then Refuse(s, Forbidden)
    else if IsOwner(s, target, company) then Refuse(s, Unprocessable)
    else
      match ParseRole(role)
      case None => Refuse(s, Unprocessable)
      case Some(r) =>
        if IsMemberOf(s, target, company) then
          Outcome(s.(companyMembers := s.companyMembers[(company, target) := r]), Ok, [])
        else Refuse(s, Ok)
  }

  /** `removeMember`: admins only; never the owner; the target must be a user
      and a member (404 otherwise). */
  function RemoveMemberAction(s: State, user: Id, company: Id, target: Id): (o: Outcome)
    ensures company !in s.companies ==> o == Refuse(s, NotFound)
    ensures company in s.companies && !IsAdminOf(s, user, company) ==> o == Refuse(s, Forbidden)
    ensures (company in s.companies && IsAdminOf(s, user, company) && IsOwner(s, target, company)) ==>
              o == Refuse(s, Unprocessable)
    ensures (company in s.companies && IsAdminOf(s, user, company) && !IsOwner(s, target, company) &&
             (target !in s.users || !IsMemberOf(s, target, company))) ==> o == Refuse(s, NotFound)
    ensures o.status == Ok <==>
              company in s.companies && IsAdminOf(s, user, company) && !IsOwner(s, target, company) &&
              target in s.users && IsMemberOf(s, target, company)
    ensures o.status == Ok ==> o.state == RemoveMember(s, company, target)
  {
    if company !in s.companies then Refuse(s, NotFound)
    else if !IsAdminOf(s, user, company) then Refuse(s, Forbidden)
    else if IsOwner(s, target, company) then Refuse(s, Unprocessable)
    else if target !in s.users || !IsMemberOf(s, target, company) then Refuse(s, NotFound)
    else Outcome(RemoveMember(s, company, target), Ok, [])
  }

  // ---------------------------------------------------------------------------
  // Reading
  // ---------------------------------------------------------------------------

  /** `show`: members only; each channel of the company with the caller's
      `is_member` flag. */
  function Show(s: State, user: Id, company: Id): (r: Response<map<Id, bool>>)
    ensures company !in s.companies ==> r == Deny(NotFound)
    ensures company in s.companies && !IsMemberOf(s, user, company) ==> r == Deny(Forbidden)
    ensures r.status == Ok <==> company in s.companies && IsMemberOf(s, user, company)
    ensures r.status == Ok ==>
              r.body.Some? && r.body.value.Keys == ChannelsOf(s, company) &&
              (forall c :: c in r.body.value ==> (r.body.value[c] <==> IsMemberOfChannel(s, user, c)))
  {
    if company !in s.companies then Deny(NotFound)
    else if !IsMemberOf(s, user, company) then Deny(Forbidden)
    else Answer(map c | c in ChannelsOf(s, company) :: IsMemberOfChannel(s, user, c))
  }

  datatype MemberView = MemberView(role: Role, isOwner: bool)

  /** `members`: members only; every member with the pivot role and `is_owner`. */
  function Members(s: State, user: Id, company: Id): (r: Response<map<Id, MemberView>>)
    ensures company !in s.companies ==> r == Deny(NotFound)
    ensures company in s.companies && !IsMemberOf(s, user, company) ==> r == Deny(Forbidden)
    ensures r.status == Ok <==> company in s.companies && IsMemberOf(s, user, company)
    ensures r.status == Ok ==>
              r.body.Some? &&
              (forall u: Id :: u in r.body.value <==> IsMemberOf(s, u, company)) &&
              (forall u :: u in r.body.value ==>
                 r.body.value[u] == MemberView(s.companyMembers[(company, u)], u == s.companies[company].owner))
  {
    if company !in s.companies then Deny(NotFound)
    else if !IsMemberOf(s, user, company) then Deny(Forbidden)
    else
      var ids := set k | k in s.companyMembers && k.0 == company :: k.1;
      assert forall u: Id :: IsMemberOf(s, u, company) ==> (company, u) in s.companyMembers && u in ids;
      Answer(map u | u in ids :: MemberView(s.companyMembers[(company, u)], u == s.companies[company].owner))
  }

  // ---------------------------------------------------------------------------
  // The owner stays an admin
  // ---------------------------------------------------------------------------

  /** Every company's owner is an admin member of it. */
  predicate OwnersAreAdmins(s: State) {
    forall c :: c in s.companies ==> IsAdminOf(s, s.companies[c].owner, c)
  }

  /** Creating, updating, joining and leaving keep every owner an admin. */
  lemma OwnerKeptBySelfService(s: State, user: Id, company: Id, name: Option<string>, password: Option<string>,
                               pw: string, hash: string -> string, slugify: string -> string,
                               check: (string, string) -> bool)
    requires OwnersAreAdmins(s)
    ensures OwnersAreAdmins(Update(s, user, company, name, password, hash, slugify).state)
    ensures OwnersAreAdmins(Join(s, user, company, pw, check).state)
    ensures OwnersAreAdmins(Leave(s, user, company).state)
  {
    OwnerKeptByUpdate(s, user, company, name, password, hash, slugify);
    OwnerKeptByJoin(s, user, company, pw, check);
    OwnerKeptByLeave(s, user, company);
  }

  lemma OwnerKeptByUpdate(s: State, user: Id, company: Id, name: Option<string>, password: Option<string>,
                          hash: string -> string, slugify: string -> string)
    requires OwnersAreAdmins(s)
    ensures OwnersAreAdmins(Update(s, user, company, name, password, hash, slugify).state)
  {
  }

  lemma OwnerKeptByJoin(s: State, user: Id, company: Id, pw: string, check: (string, string) -> bool)
    requires OwnersAreAdmins(s)
    ensures OwnersAreAdmins(Join(s, user, company, pw, check).state)
  {
  }

  lemma OwnerKeptByLeave(s: State, user: Id, company: Id)
    requires OwnersAreAdmins(s)
    ensures OwnersAreAdmins(Leave(s, user, company).state)
  {
  }

  /** The admin actions cannot demote or remove an owner. */
  lemma OwnerKeptByAdmins(s: State, user: Id, company: Id, target: Id, role: string)
    requires OwnersAreAdmins(s)
    ensures OwnersAreAdmins(UpdateMember(s, user, company, target, role).state)
    ensures OwnersAreAdmins(RemoveMemberAction(s, user, company, target).state)
  {
    var o := UpdateMember(s, user, company, target, role);
    if o.status == Ok && IsMemberOf(s, target, company) {
      forall c | c in o.state.companies
        ensures IsAdminOf(o.state, o.state.companies[c].owner, c)
      {
        assert (c, s.companies[c].owner) != (company, target);
      }
    }
    var o2 := RemoveMemberAction(s, user, company, target);
    if o2.status == Ok {
      forall c | c in o2.state.companies
        ensures IsAdminOf(o2.state, o2.state.companies[c].owner, c)
      {
        assert (c, s.companies[c].owner) != (company, target);
      }
    }
  }

  /** A new company starts with its owner as admin. */
  lemma OwnerKeptByStore(s: State, user: Id, name: string, password: string, hash: string -> string,
                         slugify: string -> string, companyId: Id, channelId: Id)
    requires OwnersAreAdmins(s)
    requires FreshCompany(s, companyId) && channelId !in s.channels
    ensures OwnersAreAdmins(Store(s, user, name, password, hash, slugify, companyId, channelId).state)
  {
  }
}
