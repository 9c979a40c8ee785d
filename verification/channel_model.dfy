/** The Channel and ChannelJoinRequest models: channel membership as a set of
    (channel, user) pairs, the pending requests of a channel, and resolving a
    request. */
module ChannelModel {
  import opened Common
  import opened Schema
  import opened UserModel

  /** `addMember`: insert the pair; adding an existing member changes nothing. */
  function AddChannelMember(s: State, channel: Id, user: Id): (s': State)
    ensures s' == s.(channelMembers := s'.channelMembers)
    ensures IsMemberOfChannel(s', user, channel)
    ensures forall p :: p in s'.channelMembers <==> p in s.channelMembers || p == (channel, user)
  {
    s.(channelMembers := s.channelMembers + {(channel, user)})
  }

  /** The pairs that make every member of a company a member of a channel. */
  function CompanyRoster(s: State, channel: Id, company: Id): (ps: set<(Id, Id)>)
    ensures forall u: Id :: (channel, u) in ps <==> IsMemberOf(s, u, company)
    ensures forall p :: p in ps ==> p.0 == channel
  {
    var ps := set k | k in s.companyMembers && k.0 == company :: (channel, k.1);
    assert forall u: Id :: IsMemberOf(s, u, company) ==> (company, u) in s.companyMembers && (channel, u) in ps;
    ps
  }

  /** `$company->users->each(fn ($member) => $channel->addMember($member, ...))`. */
  function AddCompanyMembers(s: State, channel: Id, company: Id): (s': State)
    ensures s' == s.(channelMembers := s'.channelMembers)
    ensures forall u: Id :: IsMemberOfChannel(s', u, channel) <==> IsMemberOfChannel(s, u, channel) || IsMemberOf(s, u, company)
    ensures forall c: Id, u: Id :: c != channel ==> (IsMemberOfChannel(s', u, c) <==> IsMemberOfChannel(s, u, c))
  {
    s.(channelMembers := s.channelMembers + CompanyRoster(s, channel, company))
  }

  /** `pendingJoinRequests`: the requests of the channel whose status is 'pending'. */
  function PendingJoinRequests(s: State, channel: Id): (ids: set<Id>)
    ensures forall id :: id in ids <==>
              id in s.joinRequests && s.joinRequests[id].channel == channel && s.joinRequests[id].status == Pending
  {
    set id | id in s.joinRequests && s.joinRequests[id].channel == channel && s.joinRequests[id].status == Pending
  }

  /** `pendingJoinRequests()->where('user_id', ...)->exists()`. */
  predicate HasPendingRequest(s: State, channel: Id, user: Id) {
    exists id :: id in PendingJoinRequests(s, channel) && s.joinRequests[id].user == user
  }

  /** `approve`: status 'approved', the reviewer and the time recorded, and the
      requester added to the channel. The current status is not consulted. */
  function Approve(s: State, req: Id, reviewer: Id, now: int): (s': State)
    requires req in s.joinRequests
    ensures var r := s.joinRequests[req];
            s'.joinRequests == s.joinRequests[req := r.(status := Approved, reviewedBy := Some(reviewer), reviewedAt := Some(now))]
    ensures IsMemberOfChannel(s', s.joinRequests[req].user, s.joinRequests[req].channel)
    ensures forall p :: p in s'.channelMembers <==>
              p in s.channelMembers || p == (s.joinRequests[req].channel, s.joinRequests[req].user)
    ensures s' == s.(joinRequests := s'.joinRequests, channelMembers := s'.channelMembers)
  {
    var r := s.joinRequests[req];
    var s1 := s.(joinRequests := s.joinRequests[req := r.(status := Approved, reviewedBy := Some(reviewer), reviewedAt := Some(now))]);
    AddChannelMember(s1, r.channel, r.user)
  }

  /** `reject`: status 'rejected', the reviewer and the time recorded; no
      membership changes, not even one an earlier approval granted. */
  function Reject(s: State, req: Id, reviewer: Id, now: int): (s': State)
    requires req in s.joinRequests
    ensures var r := s.joinRequests[req];
            s' == s.(joinRequests := s.joinRequests[req := r.(status := Rejected, reviewedBy := Some(reviewer), reviewedAt := Some(now))])
  {
    var r := s.joinRequests[req];
    s.(joinRequests := s.joinRequests[req := r.(status := Rejected, reviewedBy := Some(reviewer), reviewedAt := Some(now))])
  }

  /** Neither resolution looks at the current status: a rejected request can
      still be approved (and the user joins), and an approved request can be
      rejected, which leaves the user in the channel. */
  lemma ResolutionsAreRepeatable(s: State, req: Id, reviewer: Id, reviewer2: Id, t1: int, t2: int)
    requires req in s.joinRequests
    ensures var r := s.joinRequests[req];
            var a := Approve(Reject(s, req, reviewer, t1), req, reviewer2, t2);
            a.joinRequests[req].status == Approved && a.joinRequests[req].reviewedBy == Some(reviewer2) &&
            IsMemberOfChannel(a, r.user, r.channel)
    ensures var r := s.joinRequests[req];
            var b := Reject(Approve(s, req, reviewer, t1), req, reviewer2, t2);
            b.joinRequests[req].status == Rejected && b.joinRequests[req].reviewedAt == Some(t2) &&
            IsMemberOfChannel(b, r.user, r.channel)
  {
  }

  /** Resolving a request removes it from the channel's pending list and keeps
      the rest of that list. */
  lemma ResolvingLeavesPending(s: State, req: Id, reviewer: Id, now: int, approve: bool)
    requires req in s.joinRequests
    ensures var s' := if approve then Approve(s, req, reviewer, now) else Reject(s, req, reviewer, now);
            PendingJoinRequests(s', s.joinRequests[req].channel) ==
              PendingJoinRequests(s, s.joinRequests[req].channel) - {req}
  {
  }
}
