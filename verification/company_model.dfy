/** The Company model: membership with a role, leaving a company (which leaves
    its channels too), and the slug hooks. */
module CompanyModel {
  import opened Common
  import opened Schema
  import opened UserModel

  /** The channels a company owns. */
  function ChannelsOf(s: State, company: Id): (cs: set<Id>)
    ensures forall c :: c in cs <==> c in s.channels && s.channels[c].company == company
  {
    set c | c in s.channels && s.channels[c].company == company
  }

  /** `addMember($user, $role = 'user')`: an existing member keeps their role;
      otherwise exactly one membership with the given role is inserted. */
  function AddMember(s: State, company: Id, user: Id, role: Role): (s': State)
    ensures s' == s.(companyMembers := s'.companyMembers)
    ensures IsMemberOf(s, user, company) ==> s' == s
    ensures !IsMemberOf(s, user, company) ==>
              s'.companyMembers == s.companyMembers[(company, user) := role] &&
              |s'.companyMembers| == |s.companyMembers| + 1
  {
    if (company, user) in s.companyMembers then s
    else s.(companyMembers := s.companyMembers[(company, user) := role])
  }

  /** `removeMember`: the membership goes, and so does the user's membership of
      every channel of this company. */
  function RemoveMember(s: State, company: Id, user: Id): (s': State)
    ensures s' == s.(companyMembers := s'.companyMembers, channelMembers := s'.channelMembers)
    ensures !IsMemberOf(s', user, company)
    ensures forall c :: c in ChannelsOf(s, company) ==> !IsMemberOfChannel(s', user, c)
    ensures forall c: Id, u: Id :: (u != user || c !in ChannelsOf(s, company)) ==>
              (IsMemberOfChannel(s', u, c) <==> IsMemberOfChannel(s, u, c))
    ensures forall k :: k in s'.companyMembers <==> k in s.companyMembers && k != (company, user)
    ensures forall k :: k in s'.companyMembers ==> s'.companyMembers[k] == s.companyMembers[k]
  {
    var channels := ChannelsOf(s, company);
    s.(companyMembers := s.companyMembers - {(company, user)},
       channelMembers := set p | p in s.channelMembers && !(p.1 == user && p.0 in channels))
  }

  /** `removeMember` as written: the company pivot is detached first; then
      `detach` is called on each channel's `members()`, which the Channel
      model declares as has-many. A has-many relation has no `detach`, so the
      first channel throws, and nothing undoes the first step. The result is
      the state left behind and whether the call threw. */
  function RemoveMemberAsWritten(s: State, company: Id, user: Id): (r: (State, bool))
    ensures r.0 == s.(companyMembers := r.0.companyMembers)
    ensures !IsMemberOf(r.0, user, company)
    ensures forall k :: k in r.0.companyMembers <==> k in s.companyMembers && k != (company, user)
    ensures r.1 <==> ChannelsOf(s, company) != {}
  {
    (s.(companyMembers := s.companyMembers - {(company, user)}), ChannelsOf(s, company) != {})
  }

  /** As written, removing a member of a company with a channel fails after
      the company membership is gone, and leaves the user in that channel;
      the intended removal takes the user out of it. */
  lemma RemovalStrandsChannelMembership(s: State, company: Id, user: Id, c: Id)
    requires c in ChannelsOf(s, company) && IsMemberOfChannel(s, user, c)
    ensures RemoveMemberAsWritten(s, company, user).1
    ensures !IsMemberOf(RemoveMemberAsWritten(s, company, user).0, user, company)
    ensures IsMemberOfChannel(RemoveMemberAsWritten(s, company, user).0, user, c)
    ensures !IsMemberOfChannel(RemoveMember(s, company, user), user, c)
  {
  }

  /** Adding and then removing a newcomer restores the memberships of the
      company. */
  lemma AddThenRemoveRestores(s: State, company: Id, user: Id, role: Role)
    requires !IsMemberOf(s, user, company)
    ensures RemoveMember(AddMember(s, company, user, role), company, user).companyMembers == s.companyMembers
  {
  }

  /** The `creating` hook: the slug is derived from the name only when none was
      given (PHP-falsy counts as none). */
  function SlugOnCreate(name: string, slug: Option<string>, slugify: string -> string): (r: Option<string>)
    ensures PhpEmpty(slug) ==> r == Some(slugify(name))
    ensures !PhpEmpty(slug) ==> r == slug
  {
    if PhpEmpty(slug) then Some(slugify(name)) else slug
  }

  /** The `updating` hook: a changed name re-derives the slug; otherwise the
      slug is kept, even one set by hand. */
  function SlugOnUpdate(oldName: string, newName: string, slug: Option<string>, slugify: string -> string): (r: Option<string>)
    ensures oldName != newName ==> r == Some(slugify(newName))
    ensures oldName == newName ==> r == slug
  {
    if oldName != newName then Some(slugify(newName)) else slug
  }

  /** The unique index on `companies.slug`: no two rows share a slug. */
  predicate UniqueSlugs(companies: map<Id, CompanyRow>) {
    forall i, j ::
      i in companies && j in companies && companies[i].slug.Some? && companies[i].slug == companies[j].slug ==> i == j
  }

  /** A row other than `self` already holds the slug: the index refuses to
      write it again, and the query exception is answered 500. */
  predicate SlugTaken(companies: map<Id, CompanyRow>, slug: Option<string>, self: Id) {
    slug.Some? && exists k :: k in companies && k != self && companies[k].slug == slug
  }

  /** Writing a row at `id` whose slug no other row holds keeps slugs unique. */
  lemma WriteKeepsUniqueSlugs(companies: map<Id, CompanyRow>, id: Id, row: CompanyRow)
    requires UniqueSlugs(companies) && !SlugTaken(companies, row.slug, id)
    ensures UniqueSlugs(companies[id := row])
  {
  }

  /** Once derived from the name, the slug stays derived from the current name
      through any sequence of renames. */
  lemma {:induction false} SlugFollowsRenames(names: seq<string>, slugify: string -> string)
    requires |names| > 0
    ensures SlugChain(names, slugify) == Some(slugify(names[|names| - 1]))
  {
    if |names| > 1 {
      SlugFollowsRenames(names[..|names| - 1], slugify);
    }
  }

  /** The slug after creating with the first name and renaming to each
      following one. */
  function SlugChain(names: seq<string>, slugify: string -> string): Option<string>
    requires |names| > 0
  {
    if |names| == 1 then SlugOnCreate(names[0], None, slugify)
    else SlugOnUpdate(names[|names| - 2], names[|names| - 1], SlugChain(names[..|names| - 1], slugify), slugify)
  }
}
