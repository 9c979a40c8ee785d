/** The helper methods of the User model: company and channel membership,
    the admin test, and the avatar accessor. */
module UserModel {
  import opened Common
  import opened Schema

  /** `isMemberOf`: a membership row exists for (company, user). */
  predicate IsMemberOf(s: State, user: Id, company: Id) {
    (company, user) in s.companyMembers
  }

  /** `isAdminOf`: the membership row exists and its role is 'admin'.
      Owning the company does not make the owner an admin. */
  predicate IsAdminOf(s: State, user: Id, company: Id) {
    (company, user) in s.companyMembers && s.companyMembers[(company, user)] == Admin
  }

  /** `isMemberOfChannel`: a channel membership row exists. */
  predicate IsMemberOfChannel(s: State, user: Id, channel: Id) {
    (channel, user) in s.channelMembers
  }

  /** Admins are members. */
  lemma AdminIsMember(s: State, user: Id, company: Id)
    requires IsAdminOf(s, user, company)
    ensures IsMemberOf(s, user, company)
  {
  }

  /** Being the owner does not enter `isAdminOf`: the owner with role 'user' is
      not an admin, and admin status is the role alone. */
  lemma AdminIsRoleNotOwnership(s: State, user: Id, company: Id)
    requires company in s.companies
    ensures IsAdminOf(s, user, company) <==>
            (IsMemberOf(s, user, company) && s.companyMembers[(company, user)].Name() == "admin")
  {
  }

  /** `avatar_url`: null when the avatar path is PHP-falsy, otherwise the public
      storage path (`asset()` prefixes the application URL, which is left out). */
  function AvatarUrl(u: User): (r: Option<string>)
    ensures r.None? <==> PhpEmpty(u.avatarPath)
    ensures r.Some? ==> StartsWith(r.value, "storage/") && r.value[8..] == u.avatarPath.value
  {
    if PhpEmpty(u.avatarPath) then None else Some("storage/" + u.avatarPath.value)
  }
}
