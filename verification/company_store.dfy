/** The company store: the channel partition, the admin flag, the presence
    roster and leaving a company. */
module CompanyStore {
  import opened Common

  datatype Company = Company(id: Id, myRole: string, isOwner: bool)

  datatype Channel = Channel(id: Id, isMember: bool, hasPendingRequest: bool)

  datatype OnlineUser = OnlineUser(id: Id, status: string)

  datatype Companies = Companies(
    companies: seq<Company>,
    current: Option<Company>,
    channels: seq<Channel>,
    currentChannel: Option<Channel>,
    online: seq<OnlineUser>)

  // ---------------------------------------------------------------------------
  // Channels and role
  // ---------------------------------------------------------------------------

  /** `myChannels`. */
  function MyChannels(cs: seq<Channel>): (r: seq<Channel>)
    ensures forall c :: c in r <==> c in cs && c.isMember
  {
    Filter(cs, (c: Channel) => c.isMember)
  }

  /** `otherChannels`. */
  function OtherChannels(cs: seq<Channel>): (r: seq<Channel>)
    ensures forall c :: c in r <==> c in cs && !c.isMember
  {
    Filter(cs, (c: Channel) => !c.isMember)
  }

  /** The two views partition the channels: every channel is in exactly one,
      and together they have as many entries as the list. */
  lemma {:induction false} ChannelsPartitioned(cs: seq<Channel>)
    ensures forall c :: c in cs <==> c in MyChannels(cs) || c in OtherChannels(cs)
    ensures forall c :: !(c in MyChannels(cs) && c in OtherChannels(cs))
    ensures |MyChannels(cs)| + |OtherChannels(cs)| == |cs|
    decreases |cs|
  {
    if |cs| > 0 {
      ChannelsPartitioned(cs[1..]);
    }
  }

  /** `isAdmin`: the role alone decides. */
  predicate IsAdmin(current: Option<Company>) {
    current.Some? && current.value.myRole == "admin"
  }

  /** The ownership flag is never consulted: whatever it says, a company is
      administered exactly when its role reads 'admin', so an owner whose role
      reads 'user' is not an admin to the client. */
  lemma OwnershipNotConsulted(c: Company, owner: bool)
    ensures IsAdmin(Some(c)) <==> c.myRole == "admin"
    ensures IsAdmin(Some(c.(isOwner := owner))) == IsAdmin(Some(c))
  {
  }

  // ---------------------------------------------------------------------------
  // Presence roster
  // ---------------------------------------------------------------------------

  predicate RosterIdsDistinct(us: seq<OnlineUser>) {
    forall i, j :: 0 <= i < j < |us| ==> us[i].id != us[j].id
  }

  function WithId(id: Id): OnlineUser -> bool {
    (u: OnlineUser) => u.id == id
  }

  /** `onJoining`: a user is appended only when their id is not listed yet. */
  function OnJoining(us: seq<OnlineUser>, u: OnlineUser): (r: seq<OnlineUser>)
    ensures (exists i :: 0 <= i < |us| && us[i].id == u.id) ==> r == us
    ensures (forall i :: 0 <= i < |us| ==> us[i].id != u.id) ==> r == us + [u]
    ensures RosterIdsDistinct(us) ==> RosterIdsDistinct(r)
  {
    if FindFirst(us, WithId(u.id)).Some? then us else us + [u]
  }

  /** `onLeaving`: every entry with the id goes, and nothing else. */
  function OnLeaving(us: seq<OnlineUser>, id: Id): (r: seq<OnlineUser>)
    ensures forall x :: x in r <==> x in us && x.id != id
  {
    Filter(us, (x: OnlineUser) => x.id != id)
  }

  /** `onStatusChanged`: the first entry with the id takes the status. */
  function OnStatusChanged(us: seq<OnlineUser>, id: Id, status: string): (r: seq<OnlineUser>)
    ensures |r| == |us|
    ensures forall i :: 0 <= i < |us| ==> r[i].id == us[i].id
    ensures FindFirst(us, WithId(id)).None? ==> r == us
    ensures FindFirst(us, WithId(id)).Some? ==>
              var i := FindFirst(us, WithId(id)).value;
              r[i].status == status && forall j :: 0 <= j < |us| && j != i ==> r[j] == us[j]
  {
    UpdateFirst(us, WithId(id), (x: OnlineUser) => x.(status := status))
  }

  /** `isUserOnline`. */
  predicate IsUserOnline(us: seq<OnlineUser>, id: Id) {
    exists i :: 0 <= i < |us| && us[i].id == id
  }

  /** `getUserStatus`: the listed status, or 'offline' when the user is not
      listed or the status is empty. */
  function GetUserStatus(us: seq<OnlineUser>, id: Id): (r: string)
    ensures !IsUserOnline(us, id) ==> r == "offline"
    ensures IsUserOnline(us, id) ==>
              var u := us[FindFirst(us, WithId(id)).value];
              r == (if u.status == "" then "offline" else u.status)
  {
    match FindFirst(us, WithId(id))
    case None => "offline"
    case Some(i) => if us[i].status == "" then "offline" else us[i].status
  }

  /** A joined user is online, a left one is not, and a status change is what
      `getUserStatus` reports afterwards (unless it is empty). */
  lemma RosterQueriesFollowEvents(us: seq<OnlineUser>, u: OnlineUser, id: Id, status: string)
    requires RosterIdsDistinct(us)
    ensures IsUserOnline(OnJoining(us, u), u.id)
    ensures !IsUserOnline(OnLeaving(us, id), id)
    ensures GetUserStatus(OnLeaving(us, id), id) == "offline"
    ensures IsUserOnline(us, id) && status != "" ==> GetUserStatus(OnStatusChanged(us, id, status), id) == status
  {
    var j := OnJoining(us, u);
    if forall i :: 0 <= i < |us| ==> us[i].id != u.id {
      assert j[|us|].id == u.id;
    }
    if IsUserOnline(us, id) {
      var s := OnStatusChanged(us, id, status);
      var i := FindFirst(us, WithId(id)).value;
      assert s[i].id == id;
      FindFirstIs(s, WithId(id), i);
    }
  }

  // ---------------------------------------------------------------------------
  // Companies
  // ---------------------------------------------------------------------------

  /** `leaveCompany` after the server answered: the company leaves the list;
      if it was the current one, the current company and the channels are
      cleared (the current channel is not). */
  function LeaveCompany(st: Companies, id: Id): (r: Companies)
    ensures forall c :: c in r.companies <==> c in st.companies && c.id != id
    ensures st.current.Some? && st.current.value.id == id ==> r.current.None? && r.channels == []
    ensures !(st.current.Some? && st.current.value.id == id) ==> r.current == st.current && r.channels == st.channels
    ensures r.currentChannel == st.currentChannel && r.online == st.online
  {
    var cs := Filter(st.companies, (c: Company) => c.id != id);
    if st.current.Some? && st.current.value.id == id then st.(companies := cs, current := None, channels := [])
    else st.(companies := cs)
  }

  /** `selectCompany` with the channel list the server returns: the current
      channel is cleared and the roster is left for the presence callbacks. */
  function SelectCompany(st: Companies, c: Company, channels: seq<Channel>): (r: Companies)
    ensures r.current == Some(c) && r.currentChannel.None? && r.channels == channels
    ensures r.companies == st.companies && r.online == st.online
  {
    st.(current := Some(c), currentChannel := None, channels := channels)
  }

  /** `createChannel`: without a current company nothing happens; otherwise
      the new channel is listed as joined and without a pending request. */
  function CreateChannel(st: Companies, id: Id): (r: Companies)
    ensures st.current.None? ==> r == st
    ensures st.current.Some? ==> r.channels == st.channels + [Channel(id, true, false)]
    ensures r == st.(channels := r.channels)
  {
    if st.current.None? then st else st.(channels := st.channels + [Channel(id, true, false)])
  }

  /** A freshly created channel is among one's own channels. */
  lemma CreatedChannelIsMine(st: Companies, id: Id)
    requires st.current.Some?
    ensures Channel(id, true, false) in MyChannels(CreateChannel(st, id).channels)
  {
    var r := CreateChannel(st, id).channels;
    assert r[|st.channels|] == Channel(id, true, false);
  }

  function ChannelWithId(id: Id): Channel -> bool {
    (c: Channel) => c.id == id
  }

  /** `requestJoinChannel`: the first channel with the id is marked pending,
      every other entry is left as it was, and an unlisted id changes nothing. */
  function RequestJoinChannel(cs: seq<Channel>, id: Id): (r: seq<Channel>)
    ensures |r| == |cs|
    ensures forall i :: 0 <= i < |cs| ==> r[i].id == cs[i].id && r[i].isMember == cs[i].isMember
    ensures FindFirst(cs, ChannelWithId(id)).None? ==> r == cs
    ensures FindFirst(cs, ChannelWithId(id)).Some? ==>
              var i := FindFirst(cs, ChannelWithId(id)).value;
              r[i] == cs[i].(hasPendingRequest := true) &&
              forall j :: 0 <= j < |cs| && j != i ==> r[j] == cs[j]
  {
    UpdateFirst(cs, ChannelWithId(id), (c: Channel) => c.(hasPendingRequest := true))
  }
}
