/** ChannelController: listing and showing channels, the admin-only
    creation, update, deletion and member management, and the join-request
    workflow. */
module ChannelController {
  import opened Common
  import opened Schema
  import opened UserModel
  import opened ChannelModel
  import opened CompanyModel
  import opened Http

  /** `name`: 'min:2', 'max:255'; `description`: 'max:1000'; a request
      message: 'max:500'. */
  predicate NameValid(name: string) {
    2 <= |name| <= 255
  }

  predicate DescriptionValid(description: Option<string>) {
    description.None? || |description.value| <= 1000
  }

  const MaxRequestMessage: nat := 500

  /** The admin guard of the channel actions: an admin of the channel's company. */
  predicate IsChannelAdmin(s: State, user: Id, channel: Id)
    requires channel in s.channels
  {
    IsAdminOf(s, user, s.channels[channel].company)
  }

  datatype ChannelSummary = ChannelSummary(isPrivate: bool, isMember: bool, hasPendingRequest: bool)

  /** `index`: company members only; every channel of the company, private ones
      included, with the caller's membership and pending-request flags. */
  function Index(s: State, user: Id, company: Id): (r: Response<map<Id, ChannelSummary>>)
    ensures company !in s.companies ==> r == Deny(NotFound)
    ensures company in s.companies && !IsMemberOf(s, user, company) ==> r == Deny(Forbidden)
    ensures r.status == Ok <==> company in s.companies && IsMemberOf(s, user, company)
    ensures r.status == Ok ==>
              r.body.Some? && r.body.value.Keys == ChannelsOf(s, company) &&
              (forall c :: c in r.body.value ==>
                 r.body.value[c] == ChannelSummary(s.channels[c].isPrivate, IsMemberOfChannel(s, user, c),
                                                   HasPendingRequest(s, c, user)))
  {
    if company !in s.companies then Deny(NotFound)
    else if !IsMemberOf(s, user, company) then Deny(Forbidden)
    else
      Answer(map c | c in ChannelsOf(s, company) ::
               ChannelSummary(s.channels[c].isPrivate, IsMemberOfChannel(s, user, c), HasPendingRequest(s, c, user)))
  }

  /** `show`: company members only, so a private channel is visible to every
      member of its company; the body carries `is_member`. */
  function Show(s: State, user: Id, channel: Id): (r: Response<bool>)
    ensures channel !in s.channels ==> r == Deny(NotFound)
    ensures channel in s.channels && !IsMemberOf(s, user, s.channels[channel].company) ==> r == Deny(Forbidden)
    ensures r.status == Ok <==> channel in s.channels && IsMemberOf(s, user, s.channels[channel].company)
    ensures r.status == Ok ==> r.body == Some(IsMemberOfChannel(s, user, channel))
  {
    if channel !in s.channels then Deny(NotFound)
    else if !IsMemberOf(s, user, s.channels[channel].company) then Deny(Forbidden)
    else Answer(IsMemberOfChannel(s, user, channel))
  }

  /** An id no channel row or membership refers to yet. */
  predicate FreshChannel(s: State, id: Id) {
    id !in s.channels && forall p :: p in s.channelMembers ==> p.0 != id
  }

  /** `store`: admins only; `is_private` defaults to true; the creator joins,
      and a public channel gets every member of the company. */
  function Store(s: State, user: Id, company: Id, name: string, description: Option<string>,
                 isPrivate: Option<bool>, newId: Id): (o: Outcome)
    requires FreshChannel(s, newId)
    ensures company !in s.companies ==> o == Refuse(s, NotFound)
    ensures company in s.companies && !IsAdminOf(s, user, company) ==> o == Refuse(s, Forbidden)
    ensures o.status == Created <==>
              company in s.companies && IsAdminOf(s, user, company) && NameValid(name) && DescriptionValid(description)
    ensures o.status != Created ==> o.state == s
    ensures o.status == Created ==>
              var private := if isPrivate.Some? then isPrivate.value else true;
              o.state.channels == s.channels[newId := ChannelRow(company, name, description, private, user)] &&
              (forall u: Id :: IsMemberOfChannel(o.state, u, newId) <==> u == user || (!private && IsMemberOf(s, u, company))) &&
              (forall c: Id, u: Id :: c != newId ==> (IsMemberOfChannel(o.state, u, c) <==> IsMemberOfChannel(s, u, c)))
  {
    if company !in s.companies then Refuse(s, NotFound)
    else if !IsAdminOf(s, user, company) then Refuse(s, Forbidden)
    else if !NameValid(name) || !DescriptionValid(description) then Refuse(s, Unprocessable)
    else
      var private := if isPrivate.Some? then isPrivate.value else true;
      var s1 := s.(channels := s.channels[newId := ChannelRow(company, name, description, private, user)]);
      var s2 := AddChannelMember(s1, newId, user);
      Outcome(if private then s2 else AddCompanyMembers(s2, newId, company), Created, [])
  }

  /** A channel created without saying otherwise is private and holds only its
      creator. */
  lemma StoreDefaultsToPrivate(s: State, user: Id, company: Id, name: string, description: Option<string>, newId: Id)
    requires FreshChannel(s, newId)
    requires Store(s, user, company, name, description, None, newId).status == Created
    ensures var s' := Store(s, user, company, name, description, None, newId).state;
            s'.channels[newId].isPrivate && forall u: Id :: IsMemberOfChannel(s', u, newId) <==> u == user
  {
  }

  /** `update`: admins only; only a switch from private to public adds the
      company's members, and no update removes anyone. */
  function Update(s: State, user: Id, channel: Id, name: Option<string>, description: Option<Option<string>>,
                  isPrivate: Option<bool>): (o: Outcome)
    ensures channel !in s.channels ==> o == Refuse(s, NotFound)
    ensures channel in s.channels && !IsChannelAdmin(s, user, channel) ==> o == Refuse(s, Forbidden)
    ensures o.status == Ok <==>
              channel in s.channels && IsChannelAdmin(s, user, channel) &&
              (name.None? || NameValid(name.value)) && (description.None? || DescriptionValid(description.value))
    ensures o.status != Ok ==> o.state == s
    ensures o.status == Ok ==>
              var old_ := s.channels[channel];
              var opened_ := old_.isPrivate && isPrivate == Some(false);
              o.state.channels == s.channels[channel := ChannelRow(
                old_.company,
                if name.Some? then name.value else old_.name,
                if description.Some? then description.value else old_.description,
                if isPrivate.Some? then isPrivate.value else old_.isPrivate,
                old_.createdBy)] &&
              (opened_ ==> o.state == AddCompanyMembers(s.(channels := o.state.channels), channel, old_.company)) &&
              (!opened_ ==> o.state.channelMembers == s.channelMembers)
  {
    if channel !in s.channels then Refuse(s, NotFound)
    else if !IsChannelAdmin(s, user, channel) then Refuse(s, Forbidden)
    else if (name.Some? && !NameValid(name.value)) || (description.Some? && !DescriptionValid(description.value)) then
      Refuse(s, Unprocessable)
    else
      var old_ := s.channels[channel];
      var row := ChannelRow(old_.company,
                            if name.Some? then name.value else old_.name,
                            if description.Some? then description.value else old_.description,
                            if isPrivate.Some? then isPrivate.value else old_.isPrivate,
                            old_.createdBy);
      var s1 := s.(channels := s.channels[channel := row]);
      var opened_ := old_.isPrivate && isPrivate == Some(false);
      Outcome(if opened_ then AddCompanyMembers(s1, channel, old_.company) else s1, Ok, [])
  }

  /** An update never removes a channel member. */
  lemma UpdateRemovesNoOne(s: State, user: Id, channel: Id, name: Option<string>, description: Option<Option<string>>,
                           isPrivate: Option<bool>, c: Id, u: Id)
    requires IsMemberOfChannel(s, u, c)
    ensures IsMemberOfChannel(Update(s, user, channel, name, description, isPrivate).state, u, c)
  {
  }

  /** `destroy`: admins only; the company's last channel cannot go. The
      channel's memberships go with it. */
  function Destroy(s: State, user: Id, channel: Id): (o: Outcome)
    ensures channel !in s.channels ==> o == Refuse(s, NotFound)
    ensures channel in s.channels && !IsChannelAdmin(s, user, channel) ==> o == Refuse(s, Forbidden)
    ensures (channel in s.channels && IsChannelAdmin(s, user, channel) &&
             |ChannelsOf(s, s.channels[channel].company)| == 1) ==> o == Refuse(s, Unprocessable)
    ensures o.status == Ok <==>
              channel in s.channels && IsChannelAdmin(s, user, channel) &&
              |ChannelsOf(s, s.channels[channel].company)| != 1
    ensures o.status == Ok ==>
              o.state.channels == s.channels - {channel} &&
              (forall c: Id, u: Id :: IsMemberOfChannel(o.state, u, c) <==> IsMemberOfChannel(s, u, c) && c != channel)
  {
    if channel !in s.channels then Refuse(s, NotFound)
    else if !IsChannelAdmin(s, user, channel) then Refuse(s, Forbidden)
    else if |ChannelsOf(s, s.channels[channel].company)| == 1 then Refuse(s, Unprocessable)
    else
      Outcome(s.(channels := s.channels - {channel},
                 channelMembers := set p | p in s.channelMembers && p.0 != channel), Ok, [])
  }

  /** A company with channels keeps at least one, whatever is deleted. */
  lemma LastChannelSurvives(s: State, user: Id, channel: Id, company: Id)
    requires ChannelsOf(s, company) != {}
    ensures ChannelsOf(Destroy(s, user, channel).state, company) != {}
  {
    var o := Destroy(s, user, channel);
    if o.status == Ok {
      var c :| c in ChannelsOf(s, company);
      if c == channel {
        assert ChannelsOf(s, company) != {channel};
        var d :| d in ChannelsOf(s, company) && d != channel;
        assert d in ChannelsOf(o.state, company);
      } else {
        assert c in ChannelsOf(o.state, company);
      }
    }
  }

  /** `members`: channel members only; the members of the channel. */
  function Members(s: State, user: Id, channel: Id): (r: Response<set<Id>>)
    ensures channel !in s.channels ==> r == Deny(NotFound)
    ensures channel in s.channels && !IsMemberOfChannel(s, user, channel) ==> r == Deny(Forbidden)
    ensures r.status == Ok <==> channel in s.channels && IsMemberOfChannel(s, user, channel)
    ensures r.status == Ok ==> r.body.Some? && forall u: Id :: u in r.body.value <==> IsMemberOfChannel(s, u, channel)
  {
    if channel !in s.channels then Deny(NotFound)
    else if !IsMemberOfChannel(s, user, channel) then Deny(Forbidden)
    else
      var ids := set p | p in s.channelMembers && p.0 == channel :: p.1;
      assert forall u: Id :: IsMemberOfChannel(s, u, channel) ==> (channel, u) in s.channelMembers && u in ids;
      Answer(ids)
  }

  /** `addMember`: admins only; the target must exist, belong to the company
      and not be in the channel yet. */
  function AddMemberAction(s: State, user: Id, channel: Id, target: Id): (o: Outcome)
    ensures channel !in s.channels ==> o == Refuse(s, NotFound)
    ensures channel in s.channels && !IsChannelAdmin(s, user, channel) ==> o == Refuse(s, Forbidden)
    ensures (channel in s.channels && IsChannelAdmin(s, user, channel) &&
             (target !in s.users || !IsMemberOf(s, target, s.channels[channel].company) ||
              IsMemberOfChannel(s, target, channel))) ==> o == Refuse(s, Unprocessable)
    ensures o.status == Ok <==>
              channel in s.channels && IsChannelAdmin(s, user, channel) && target in s.users &&
              IsMemberOf(s, target, s.channels[channel].company) && !IsMemberOfChannel(s, target, channel)
    ensures o.status == Ok ==> o.state.channelMembers == s.channelMembers + {(channel, target)}
  {
    if channel !in s.channels then Refuse(s, NotFound)
    else if !IsChannelAdmin(s, user, channel) then Refuse(s, Forbidden)
    else if target !in s.users then Refuse(s, Unprocessable)
    else if !IsMemberOf(s, target, s.channels[channel].company) then Refuse(s, Unprocessable)
    else if IsMemberOfChannel(s, target, channel) then Refuse(s, Unprocessable)
    else Outcome(AddChannelMember(s, channel, target), Ok, [])
  }

  /** `removeMember`: admins only; detaching a non-member still succeeds. */
  function RemoveMemberAction(s: State, user: Id, channel: Id, target: Id): (o: Outcome)
    ensures channel !in s.channels ==> o == Refuse(s, NotFound)
    ensures channel in s.channels && !IsChannelAdmin(s, user, channel) ==> o == Refuse(s, Forbidden)
    ensures o.status == Ok <==> channel in s.channels && IsChannelAdmin(s, user, channel)
    ensures o.status == Ok ==> o.state == s.(channelMembers := s.channelMembers - {(channel, target)})
  {
    if channel !in s.channels then Refuse(s, NotFound)
    else if !IsChannelAdmin(s, user, channel) then Refuse(s, Forbidden)
    else Outcome(s.(channelMembers := s.channelMembers - {(channel, target)}), Ok, [])
  }

  // ---------------------------------------------------------------------------
  // Join requests
  // ---------------------------------------------------------------------------

  /** `requestJoin`, corrected to answer 201 with the stored request: company
      members who are not in the channel and have no pending request for it;
      creates exactly one pending request. Public channels are not excluded. */
  function RequestJoin(s: State, user: Id, channel: Id, message: Option<string>, newId: Id): (o: Outcome)
    requires newId !in s.joinRequests
    ensures channel !in s.channels ==> o == Refuse(s, NotFound)
    ensures channel in s.channels && !IsMemberOf(s, user, s.channels[channel].company) ==> o == Refuse(s, Forbidden)
    ensures o.status == Created <==>
              channel in s.channels && IsMemberOf(s, user, s.channels[channel].company) &&
              !IsMemberOfChannel(s, user, channel) && !HasPendingRequest(s, channel, user) &&
              (message.None? || |message.value| <= MaxRequestMessage)
    ensures o.status != Created ==> o.state == s
    ensures o.status == Created ==>
              o.state == s.(joinRequests := s.joinRequests[newId := JoinRequest(channel, user, Pending, message, None, None)])
  {
    if channel !in s.channels then Refuse(s, NotFound)
    else if !IsMemberOf(s, user, s.channels[channel].company) then Refuse(s, Forbidden)
    else if IsMemberOfChannel(s, user, channel) then Refuse(s, Unprocessable)
    else if HasPendingRequest(s, channel, user) then Refuse(s, Unprocessable)
    else if message.Some? && |message.value| > MaxRequestMessage then Refuse(s, Unprocessable)
    else Outcome(s.(joinRequests := s.joinRequests[newId := JoinRequest(channel, user, Pending, message, None, None)]),
                 Created, [])
  }

  /** `requestJoin` as written: the request is stored, but the join-request
      model has timestamps switched off, so the new instance has no
      `created_at`, and formatting it for the response fails. Every request
      that passes the guards is answered 500, with the row already stored. */
  function RequestJoinAsWritten(s: State, user: Id, channel: Id, message: Option<string>, newId: Id): (o: Outcome)
    requires newId !in s.joinRequests
    ensures RequestJoin(s, user, channel, message, newId).status != Created ==> o == RequestJoin(s, user, channel, message, newId)
    ensures RequestJoin(s, user, channel, message, newId).status == Created ==>
              o.status == ServerError && o.state == RequestJoin(s, user, channel, message, newId).state
  {
    var o := RequestJoin(s, user, channel, message, newId);
    if o.status == Created then o.(status := ServerError) else o
  }

  /** As written, a first request from a company member is answered 500 and
      still leaves a pending request behind, so a retry is refused 422 as
      already pending; the corrected request is answered 201. */
  lemma RequestJoinFailsAfterStoring(s: State, user: Id, channel: Id, newId: Id, retryId: Id)
    requires newId !in s.joinRequests && retryId !in s.joinRequests && retryId != newId
    requires channel in s.channels && IsMemberOf(s, user, s.channels[channel].company)
    requires !IsMemberOfChannel(s, user, channel) && !HasPendingRequest(s, channel, user)
    ensures var o := RequestJoinAsWritten(s, user, channel, None, newId);
            o.status == ServerError && HasPendingRequest(o.state, channel, user) &&
            RequestJoinAsWritten(o.state, user, channel, None, retryId).status == Unprocessable
    ensures RequestJoin(s, user, channel, None, newId).status == Created
  {
    var o := RequestJoinAsWritten(s, user, channel, None, newId);
    assert newId in PendingJoinRequests(o.state, channel);
  }

  /** At most one pending request per user and channel. */
  predicate OnePendingPerUser(s: State) {
    forall i, j :: (i in s.joinRequests && j in s.joinRequests &&
                    s.joinRequests[i].status == Pending && s.joinRequests[j].status == Pending &&
                    s.joinRequests[i].channel == s.joinRequests[j].channel &&
                    s.joinRequests[i].user == s.joinRequests[j].user) ==> i == j
  }

  /** A second request while one is pending is refused, so requesting keeps
      pending requests unique. */
  lemma RequestJoinKeepsOnePending(s: State, user: Id, channel: Id, message: Option<string>, newId: Id)
    requires newId !in s.joinRequests && OnePendingPerUser(s)
    ensures OnePendingPerUser(RequestJoin(s, user, channel, message, newId).state)
  {
    var o := RequestJoin(s, user, channel, message, newId);
    if o.status == Created {
      forall i | i in s.joinRequests && s.joinRequests[i].status == Pending && s.joinRequests[i].channel == channel
        ensures s.joinRequests[i].user != user
      {
        assert i in PendingJoinRequests(s, channel);
      }
    }
  }

  /** `joinRequests`: admins only; the channel's pending requests. */
  function JoinRequests(s: State, user: Id, channel: Id): (r: Response<set<Id>>)
    ensures channel !in s.channels ==> r == Deny(NotFound)
    ensures channel in s.channels && !IsChannelAdmin(s, user, channel) ==> r == Deny(Forbidden)
    ensures r.status == Ok <==> channel in s.channels && IsChannelAdmin(s, user, channel)
    ensures r.status == Ok ==>
              r.body.Some? &&
              (forall id :: id in r.body.value <==>
                 id in s.joinRequests && s.joinRequests[id].channel == channel && s.joinRequests[id].status == Pending)
  {
    if channel !in s.channels then Deny(NotFound)
    else if !IsChannelAdmin(s, user, channel) then Deny(Forbidden)
    else Answer(PendingJoinRequests(s, channel))
  }

  /** `handleJoinRequest`: both route parameters must exist; admins only; the
      request must belong to this channel; the action is 'approve' or
      'reject'. The request's current status is not checked. */
  function HandleJoinRequest(s: State, user: Id, channel: Id, req: Id, action: string, now: int): (o: Outcome)
    ensures channel !in s.channels || req !in s.joinRequests ==> o == Refuse(s, NotFound)
    ensures (channel in s.channels && req in s.joinRequests && !IsChannelAdmin(s, user, channel)) ==>
              o == Refuse(s, Forbidden)
    ensures (channel in s.channels && req in s.joinRequests && IsChannelAdmin(s, user, channel) &&
             s.joinRequests[req].channel != channel) ==> o == Refuse(s, NotFound)
    ensures o.status == Ok <==>
              channel in s.channels && req in s.joinRequests && IsChannelAdmin(s, user, channel) &&
              s.joinRequests[req].channel == channel && (action == "approve" || action == "reject")
    ensures o.status == Ok && action == "approve" ==> o.state == Approve(s, req, user, now)
    ensures o.status == Ok && action == "reject" ==> o.state == Reject(s, req, user, now)
    ensures o.status != Ok ==> o.state == s
  {
    if channel !in s.channels || req !in s.joinRequests then Refuse(s, NotFound)
    else if !IsChannelAdmin(s, user, channel) then Refuse(s, Forbidden)
    else if s.joinRequests[req].channel != channel then Refuse(s, NotFound)
    else if action == "approve" then Outcome(Approve(s, req, user, now), Ok, [])
    else if action == "reject" then Outcome(Reject(s, req, user, now), Ok, [])
    else Refuse(s, Unprocessable)
  }

  /** An approval makes the requester a member of the channel the route names,
      and handling keeps pending requests unique. */
  lemma HandlingApprovesIntoChannel(s: State, user: Id, channel: Id, req: Id, action: string, now: int)
    requires OnePendingPerUser(s)
    requires HandleJoinRequest(s, user, channel, req, action, now).status == Ok
    ensures var s' := HandleJoinRequest(s, user, channel, req, action, now).state;
            OnePendingPerUser(s') && s'.joinRequests[req].reviewedBy == Some(user) &&
            (action == "approve" ==> IsMemberOfChannel(s', s.joinRequests[req].user, channel))
  {
  }
}
