/** The DirectConversation model: participants, the two acceptance flags and
    `findOrCreateBetween`, which stores every pair in canonical order. */
module DirectConversationModel {
  import opened Common
  import opened Schema

  /** `hasUser`. */
  predicate HasUser(c: Conversation, u: Id) {
    c.userOne == u || c.userTwo == u
  }

  /** `getOtherUser`: the user in the opposite slot. A caller in slot one gets
      slot two; anyone else (slot two or not a participant) gets slot one. */
  function OtherUser(c: Conversation, u: Id): (o: Id)
    ensures c.userOne == u ==> o == c.userTwo
    ensures c.userOne != u ==> o == c.userOne
  {
    if c.userOne == u then c.userTwo else c.userOne
  }

  /** For a participant of a proper pair, the other user is the other
      participant, and asking from the other side gives the caller back. */
  lemma OtherUserIsOpposite(c: Conversation, u: Id)
    requires c.userOne != c.userTwo
    requires HasUser(c, u)
    ensures HasUser(c, OtherUser(c, u)) && OtherUser(c, u) != u
    ensures OtherUser(c, OtherUser(c, u)) == u
  {
  }

  /** `isAccepted`: both flags are set. */
  predicate IsAccepted(c: Conversation) {
    c.userOneAccepted && c.userTwoAccepted
  }

  /** `acceptBy`: sets the caller's own slot flag (slot one first) and nothing
      else; for a non-participant it does nothing. */
  function AcceptBy(c: Conversation, u: Id): (r: Conversation)
    ensures r.userOne == c.userOne && r.userTwo == c.userTwo
    ensures c.userOne == u ==> r.userOneAccepted && r.userTwoAccepted == c.userTwoAccepted
    ensures c.userOne != u && c.userTwo == u ==> r.userTwoAccepted && r.userOneAccepted == c.userOneAccepted
    ensures !HasUser(c, u) ==> r == c
  {
    if c.userOne == u then c.(userOneAccepted := true)
    else if c.userTwo == u then c.(userTwoAccepted := true)
    else c
  }

  /** Accepting twice is accepting once. */
  lemma AcceptByIdempotent(c: Conversation, u: Id)
    ensures AcceptBy(AcceptBy(c, u), u) == AcceptBy(c, u)
  {
  }

  /** Acceptance by both participants, in either order, accepts the conversation;
      acceptance by one participant alone accepts it iff the other had already. */
  lemma BothAcceptancesAccept(c: Conversation)
    requires c.userOne != c.userTwo
    ensures IsAccepted(AcceptBy(AcceptBy(c, c.userOne), c.userTwo))
    ensures IsAccepted(AcceptBy(AcceptBy(c, c.userTwo), c.userOne))
    ensures IsAccepted(AcceptBy(c, c.userOne)) <==> c.userTwoAccepted
    ensures IsAccepted(AcceptBy(c, c.userTwo)) <==> c.userOneAccepted
  {
  }

  function Min(a: Id, b: Id): Id { if a <= b then a else b }
  function Max(a: Id, b: Id): Id { if a <= b then b else a }

  /** A stored row for the canonical pair (lo, hi) exists. */
  predicate PairStored(convs: map<Id, Conversation>, lo: Id, hi: Id) {
    exists id :: id in convs && convs[id].userOne == lo && convs[id].userTwo == hi
  }

  /** Result of `findOrCreateBetween`: the conversations table after the call and
      the id of the row returned. */
  datatype Found = Found(convs: map<Id, Conversation>, id: Id)

  /** `findOrCreateBetween(initiator, receiver)`: the row of the canonical pair
      (min, max) if there is one, else a new row `newId` whose only set flag is
      the initiator's slot. */
  ghost function FindOrCreateBetween(convs: map<Id, Conversation>, initiator: Id, receiver: Id, newId: Id): (r: Found)
    requires newId !in convs
    ensures r.id in r.convs
    ensures r.convs[r.id].userOne == Min(initiator, receiver) && r.convs[r.id].userTwo == Max(initiator, receiver)
    ensures r.convs[r.id].userOne <= r.convs[r.id].userTwo
    ensures PairStored(convs, Min(initiator, receiver), Max(initiator, receiver)) ==>
              r.convs == convs && r.id in convs
    ensures !PairStored(convs, Min(initiator, receiver), Max(initiator, receiver)) ==>
              r.id == newId &&
              r.convs == convs[newId := Conversation(Min(initiator, receiver), Max(initiator, receiver),
                                                     Min(initiator, receiver) == initiator,
                                                     Max(initiator, receiver) == initiator)]
  {
    var lo := Min(initiator, receiver);
    var hi := Max(initiator, receiver);
    if PairStored(convs, lo, hi) then
      var id :| id in convs && convs[id].userOne == lo && convs[id].userTwo == hi;
      Found(convs, id)
    else
      Found(convs[newId := Conversation(lo, hi, lo == initiator, hi == initiator)], newId)
  }

  /** The order of the two users does not matter: (A, B) and (B, A) find or
      create the same row. */
  lemma FindOrCreateSymmetric(convs: map<Id, Conversation>, a: Id, b: Id, newId: Id)
    requires newId !in convs
    requires PairStored(convs, Min(a, b), Max(a, b))
    ensures FindOrCreateBetween(convs, a, b, newId) == FindOrCreateBetween(convs, b, a, newId)
  {
    assert Min(a, b) == Min(b, a) && Max(a, b) == Max(b, a);
  }

  /** A second call, from either side, creates nothing and returns the row the
      first call returned, with its flags untouched. */
  lemma FindOrCreateTwice(convs: map<Id, Conversation>, a: Id, b: Id, newId: Id, newId2: Id)
    requires newId !in convs
    requires UniquePairs(convs)
    requires newId2 !in FindOrCreateBetween(convs, a, b, newId).convs
    ensures var first := FindOrCreateBetween(convs, a, b, newId);
            FindOrCreateBetween(first.convs, a, b, newId2) == first &&
            FindOrCreateBetween(first.convs, b, a, newId2) == first
  {
    var first := FindOrCreateBetween(convs, a, b, newId);
    assert Min(a, b) == Min(b, a) && Max(a, b) == Max(b, a);
    assert PairStored(first.convs, Min(a, b), Max(a, b)) by {
      assert first.id in first.convs;
    }
    assert UniquePairs(first.convs);
  }

  /** On creation exactly the initiator's flag is set when the two users differ. */
  lemma CreationFlagsInitiatorOnly(convs: map<Id, Conversation>, initiator: Id, receiver: Id, newId: Id)
    requires newId !in convs
    requires initiator != receiver
    requires !PairStored(convs, Min(initiator, receiver), Max(initiator, receiver))
    ensures var c := FindOrCreateBetween(convs, initiator, receiver, newId).convs[newId];
            c.userOneAccepted != c.userTwoAccepted &&
            (c.userOneAccepted <==> c.userOne == initiator) &&
            (c.userTwoAccepted <==> c.userTwo == initiator) &&
            !IsAccepted(c)
  {
  }

  /** `findOrCreateBetween` between two distinct users keeps the table canonical
      and within the unique pair index. */
  lemma FindOrCreatePreservesValid(convs: map<Id, Conversation>, initiator: Id, receiver: Id, newId: Id)
    requires newId !in convs
    requires initiator != receiver
    requires ValidConversations(convs)
    ensures ValidConversations(FindOrCreateBetween(convs, initiator, receiver, newId).convs)
  {
  }
}
