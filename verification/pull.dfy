/**
 The remote-to-local direction of the CleverReach client: reconciling the
 groups and receivers fetched from the platform with the local campaigns and
 contact persons. The fetched lists are parameters, and so are the merge
 functions of the update objects (`CampaignRemoteUpdate.update`/`toCampaign`,
 `ContactPersonRemoteUpdate.updateContactPerson`/`toContactPerson`), whose
 bodies are not part of this model.

 Both passes have the same shape: index the local records by a key, walk the
 fetched updates in order emitting outcomes, strike every key an update
 carries off a "not yet found" copy of the index, and finally emit one outcome
 for every local record still filed under a remaining key. That last sweep
 walks a `HashMap`, so its order is unspecified: the contracts describe it up
 to order, as a multiset.
 */
module Pull {
  import opened Model
  import opened Seqs
  import opened Multimap

  // ---------------------------------------------------------------------------
  // Campaigns (groups)
  // ---------------------------------------------------------------------------

  /** The two operations of a fetched group: merging it into a local campaign
      and building a new local campaign from it. */
  datatype GroupMerge = GroupMerge(update: (CampaignUpdate, Campaign) -> Campaign, toCampaign: CampaignUpdate -> Campaign)

  /** The index key a fetched group is looked up with. */
  function GroupKey(u: CampaignUpdate): Option<string>
  {
    Some(u.remoteId)
  }

  /** Local campaign `c` is the counterpart of fetched group `u`. */
  predicate MatchesGroup(c: Campaign, u: CampaignUpdate)
  {
    c.remoteId == Some(u.remoteId)
  }

  /** The outcome of merging group `u` into its local counterpart `c`: no
      changes exactly when the merge returns `c` itself. */
  function MergeCampaign(u: CampaignUpdate, c: Campaign, merge: GroupMerge): (o: RemoteToLocal<Campaign>)
    ensures o.entity == merge.update(u, c)
    ensures o.NoChanges? <==> merge.update(u, c) == c
    ensures o.NoChanges? || o.ObtainedOtherRemoteData?
  {
    var updated := merge.update(u, c);
    if updated == c then NoChanges(updated) else ObtainedOtherRemoteData(updated)
  }

  function DeletedCampaign(c: Campaign): RemoteToLocal<Campaign>
  {
    DeletedOnRemotePlatform(ForgetCampaignRemoteId(c))
  }

  /** Reference description of what a fetched group may contribute: a new
      record when no local campaign carries its id, otherwise the merge
      outcome of some campaign that does. */
  predicate GroupExplains(u: CampaignUpdate, campaigns: seq<Campaign>, merge: GroupMerge, o: RemoteToLocal<Campaign>)
  {
    || (o == ObtainedNewDataRecord(merge.toCampaign(u)) && forall i :: 0 <= i < |campaigns| ==> !MatchesGroup(campaigns[i], u))
    || (exists i :: 0 <= i < |campaigns| && MatchesGroup(campaigns[i], u) && o == MergeCampaign(u, campaigns[i], merge))
  }

  /** The body of the loop over fetched groups for one group `u`. */
  function GroupOutcomes(u: CampaignUpdate, campaigns: seq<Campaign>, index: map<Option<string>, seq<Campaign>>, merge: GroupMerge)
    : (r: seq<RemoteToLocal<Campaign>>)
    requires index == Index(campaigns, CampaignRemoteIdOf)
    ensures (forall i :: 0 <= i < |campaigns| ==> !MatchesGroup(campaigns[i], u))
            ==> r == [ObtainedNewDataRecord(merge.toCampaign(u))]
    ensures var found := Matching(campaigns, CampaignRemoteIdOf, GroupKey(u));
            found != [] ==> |r| == |found| && forall j :: 0 <= j < |r| ==> r[j] == MergeCampaign(u, found[j], merge)
  {
    var found := Get(index, GroupKey(u));
    NoneFoundIffNoMatch(u, campaigns);
    if found == [] then [ObtainedNewDataRecord(merge.toCampaign(u))]
    else Map((c: Campaign) => MergeCampaign(u, c, merge), found)
  }

  /** A campaign carries group `u`'s id exactly when it is filed under it. */
  lemma InFound(u: CampaignUpdate, campaigns: seq<Campaign>, c: Campaign)
    ensures c in Matching(campaigns, CampaignRemoteIdOf, GroupKey(u)) <==> c in campaigns && MatchesGroup(c, u)
  {
    InKeyFilter(campaigns, CampaignRemoteIdOf, {GroupKey(u)}, true, c);
  }

  lemma NoneFoundIffNoMatch(u: CampaignUpdate, campaigns: seq<Campaign>)
    ensures Matching(campaigns, CampaignRemoteIdOf, GroupKey(u)) == []
            <==> forall i :: 0 <= i < |campaigns| ==> !MatchesGroup(campaigns[i], u)
  {
    var found := Matching(campaigns, CampaignRemoteIdOf, GroupKey(u));
    if found != [] {
      InFound(u, campaigns, found[0]);
      var i :| 0 <= i < |campaigns| && campaigns[i] == found[0];
      assert MatchesGroup(campaigns[i], u);
    }
    if i :| 0 <= i < |campaigns| && MatchesGroup(campaigns[i], u) {
      InFound(u, campaigns, campaigns[i]);
    }
  }

  /** The merge outcomes of the campaigns filed under a group's id are those
      of the campaigns carrying it. */
  lemma InMergedFound(u: CampaignUpdate, campaigns: seq<Campaign>, merge: GroupMerge, r: seq<RemoteToLocal<Campaign>>, o: RemoteToLocal<Campaign>)
    requires var found := Matching(campaigns, CampaignRemoteIdOf, GroupKey(u));
             |r| == |found| && forall j :: 0 <= j < |r| ==> r[j] == MergeCampaign(u, found[j], merge)
    ensures o in r <==> exists k :: 0 <= k < |campaigns| && MatchesGroup(campaigns[k], u) && o == MergeCampaign(u, campaigns[k], merge)
  {
    var found := Matching(campaigns, CampaignRemoteIdOf, GroupKey(u));
    if o in r {
      var j :| 0 <= j < |r| && r[j] == o;
      InFound(u, campaigns, found[j]);
      var k :| 0 <= k < |campaigns| && campaigns[k] == found[j];
      assert MatchesGroup(campaigns[k], u) && o == MergeCampaign(u, campaigns[k], merge);
    }
    if k :| 0 <= k < |campaigns| && MatchesGroup(campaigns[k], u) && o == MergeCampaign(u, campaigns[k], merge) {
      InFound(u, campaigns, campaigns[k]);
      var j :| 0 <= j < |found| && found[j] == campaigns[k];
      assert r[j] == o;
    }
  }

  /** What one fetched group contributes is exactly what the reference
      description allows. */
  lemma GroupOutcomesMeaning(u: CampaignUpdate, campaigns: seq<Campaign>, merge: GroupMerge, o: RemoteToLocal<Campaign>)
    ensures o in GroupOutcomes(u, campaigns, Index(campaigns, CampaignRemoteIdOf), merge)
            <==> GroupExplains(u, campaigns, merge, o)
  {
    if forall i :: 0 <= i < |campaigns| ==> !MatchesGroup(campaigns[i], u) {
      UnmatchedGroup(u, campaigns, merge, o);
    } else {
      MatchedGroup(u, campaigns, merge, o);
    }
  }

  lemma UnmatchedGroup(u: CampaignUpdate, campaigns: seq<Campaign>, merge: GroupMerge, o: RemoteToLocal<Campaign>)
    requires forall i :: 0 <= i < |campaigns| ==> !MatchesGroup(campaigns[i], u)
    ensures o in GroupOutcomes(u, campaigns, Index(campaigns, CampaignRemoteIdOf), merge)
            <==> o == ObtainedNewDataRecord(merge.toCampaign(u))
  {
  }

  lemma MatchedGroup(u: CampaignUpdate, campaigns: seq<Campaign>, merge: GroupMerge, o: RemoteToLocal<Campaign>)
    requires exists i :: 0 <= i < |campaigns| && MatchesGroup(campaigns[i], u)
    ensures o in GroupOutcomes(u, campaigns, Index(campaigns, CampaignRemoteIdOf), merge)
            <==> exists k :: 0 <= k < |campaigns| && MatchesGroup(campaigns[k], u) && o == MergeCampaign(u, campaigns[k], merge)
  {
    NoneFoundIffNoMatch(u, campaigns);
    InMergedFound(u, campaigns, merge, GroupOutcomes(u, campaigns, Index(campaigns, CampaignRemoteIdOf), merge), o);
  }

  /** The outcomes of the fetched groups from position `i` on, group after group. */
  function GroupsFrom(updates: seq<CampaignUpdate>, i: nat, campaigns: seq<Campaign>, index: map<Option<string>, seq<Campaign>>, merge: GroupMerge)
    : (r: seq<RemoteToLocal<Campaign>>)
    requires i <= |updates|
    requires index == Index(campaigns, CampaignRemoteIdOf)
    ensures forall o :: o in r <==> exists j :: i <= j < |updates| && o in GroupOutcomes(updates[j], campaigns, index, merge)
    decreases |updates| - i
  {
    if i == |updates| then []
    else GroupOutcomes(updates[i], campaigns, index, merge) + GroupsFrom(updates, i + 1, campaigns, index, merge)
  }

  /** `syncCampaignsRemoteToLocal`, with the fetched groups as a parameter.
      Guava's multimap index rejects a null key, so every campaign handed in
      must carry a remote id. The outcomes of the groups come first, in fetch
      order; then, in some order, one deletion (with the remote id cleared)
      for every campaign whose id no fetched group carries. */
  function SyncCampaignsRemoteToLocal(campaigns: seq<Campaign>, updates: seq<CampaignUpdate>, merge: GroupMerge)
    : (r: seq<RemoteToLocal<Campaign>>)
    requires forall i :: 0 <= i < |campaigns| ==> campaigns[i].remoteId.Some?
    ensures var found := GroupsFrom(updates, 0, campaigns, Index(campaigns, CampaignRemoteIdOf), merge);
            var gone := KeyFilter(campaigns, CampaignRemoteIdOf, KeySet(updates, GroupKey), false);
            && |r| == |found| + |gone|
            && r[..|found|] == found
            && multiset(r[|found|..]) == multiset(Map(DeletedCampaign, gone))
  {
    var found := GroupsFrom(updates, 0, campaigns, Index(campaigns, CampaignRemoteIdOf), merge);
    var gone := Leftovers(campaigns, CampaignRemoteIdOf, updates, GroupKey, DeletedCampaign);
    assert (found + gone)[|found|..] == gone;
    found + gone
  }

  /** No fetched group carries the id of campaign `c`. */
  predicate Orphaned(c: Campaign, updates: seq<CampaignUpdate>)
  {
    forall j :: 0 <= j < |updates| ==> !MatchesGroup(c, updates[j])
  }

  lemma InGone(campaigns: seq<Campaign>, updates: seq<CampaignUpdate>, c: Campaign)
    ensures c in KeyFilter(campaigns, CampaignRemoteIdOf, KeySet(updates, GroupKey), false)
            <==> c in campaigns && Orphaned(c, updates)
  {
    var seen := KeySet(updates, GroupKey);
    InKeyFilter(campaigns, CampaignRemoteIdOf, seen, false, c);
    if c.remoteId in seen {
      var j :| 0 <= j < |updates| && GroupKey(updates[j]) == c.remoteId;
      assert MatchesGroup(c, updates[j]);
    }
    if j :| 0 <= j < |updates| && MatchesGroup(c, updates[j]) {
      assert GroupKey(updates[j]) in seen;
    }
  }

  lemma InDeletedTail(campaigns: seq<Campaign>, updates: seq<CampaignUpdate>, o: RemoteToLocal<Campaign>)
    ensures o in Map(DeletedCampaign, KeyFilter(campaigns, CampaignRemoteIdOf, KeySet(updates, GroupKey), false))
            <==> exists i :: 0 <= i < |campaigns| && Orphaned(campaigns[i], updates) && o == DeletedCampaign(campaigns[i])
  {
    var gone := KeyFilter(campaigns, CampaignRemoteIdOf, KeySet(updates, GroupKey), false);
    InMap(DeletedCampaign, gone, o);
    if k :| 0 <= k < |gone| && o == DeletedCampaign(gone[k]) {
      InGone(campaigns, updates, gone[k]);
      var i :| 0 <= i < |campaigns| && campaigns[i] == gone[k];
      assert Orphaned(campaigns[i], updates);
    }
    if i :| 0 <= i < |campaigns| && Orphaned(campaigns[i], updates) && o == DeletedCampaign(campaigns[i]) {
      InGone(campaigns, updates, campaigns[i]);
      var k :| 0 <= k < |gone| && gone[k] == campaigns[i];
    }
  }

  lemma InGroupsFrom(campaigns: seq<Campaign>, updates: seq<CampaignUpdate>, merge: GroupMerge, o: RemoteToLocal<Campaign>)
    ensures o in GroupsFrom(updates, 0, campaigns, Index(campaigns, CampaignRemoteIdOf), merge)
            <==> exists j :: 0 <= j < |updates| && GroupExplains(updates[j], campaigns, merge, o)
  {
    forall j | 0 <= j < |updates|
      ensures o in GroupOutcomes(updates[j], campaigns, Index(campaigns, CampaignRemoteIdOf), merge)
              <==> GroupExplains(updates[j], campaigns, merge, o)
    {
      GroupOutcomesMeaning(updates[j], campaigns, merge, o);
    }
  }

  /** Every outcome of a campaign pull is either explained by one fetched
      group or is the deletion of a campaign whose id no fetched group
      carries, and every such outcome occurs. */
  lemma CampaignPullOutcomes(campaigns: seq<Campaign>, updates: seq<CampaignUpdate>, merge: GroupMerge, o: RemoteToLocal<Campaign>)
    requires forall i :: 0 <= i < |campaigns| ==> campaigns[i].remoteId.Some?
    ensures o in SyncCampaignsRemoteToLocal(campaigns, updates, merge)
            <==> || (exists j :: 0 <= j < |updates| && GroupExplains(updates[j], campaigns, merge, o))
                 || (exists i :: 0 <= i < |campaigns| && Orphaned(campaigns[i], updates) && o == DeletedCampaign(campaigns[i]))
  {
    var r := SyncCampaignsRemoteToLocal(campaigns, updates, merge);
    var found := GroupsFrom(updates, 0, campaigns, Index(campaigns, CampaignRemoteIdOf), merge);
    var tail := Map(DeletedCampaign, KeyFilter(campaigns, CampaignRemoteIdOf, KeySet(updates, GroupKey), false));
    assert o in r <==> o in found || o in tail by {
      assert r == found + r[|found|..];
      assert o in r[|found|..] <==> o in multiset(r[|found|..]);
    }
    InGroupsFrom(campaigns, updates, merge, o);
    InDeletedTail(campaigns, updates, o);
  }

  /** A local campaign whose group is no longer on the platform is reported
      as deleted there, with its remote id cleared. */
  lemma CampaignDeletedOnRemote(campaigns: seq<Campaign>, updates: seq<CampaignUpdate>, merge: GroupMerge, i: nat)
    requires forall k :: 0 <= k < |campaigns| ==> campaigns[k].remoteId.Some?
    requires i < |campaigns|
    requires forall j :: 0 <= j < |updates| ==> updates[j].remoteId != campaigns[i].remoteId.value
    ensures DeletedOnRemotePlatform(campaigns[i].(remoteId := None)) in SyncCampaignsRemoteToLocal(campaigns, updates, merge)
  {
    assert Orphaned(campaigns[i], updates);
    CampaignPullOutcomes(campaigns, updates, merge, DeletedCampaign(campaigns[i]));
  }

  // ---------------------------------------------------------------------------
  // Contact persons (receivers)
  // ---------------------------------------------------------------------------

  /** The two operations of a fetched receiver: merging it into a local
      contact person and building a new local contact person from it. */
  datatype ReceiverMerge = ReceiverMerge(update: (ContactUpdate, Person) -> Person, toPerson: ContactUpdate -> Person)

  const NoEmailMessage: string := "contact person has no email address"

  predicate HasEmail(p: Person)
  {
    p.email.Some?
  }

  /** `!Check.isEmpty(remoteId, true)`: a remote id with some non-blank character. */
  predicate HasRemoteId(p: Person)
  {
    !IsBlank(p.remoteId)
  }

  /** `Check.isEmpty(remoteId)`, without trimming. */
  predicate LacksRemoteId(p: Person)
  {
    IsEmpty(p.remoteId)
  }

  /** The index keys a fetched receiver is looked up with. */
  function ReceiverKey(u: ContactUpdate): Option<string>
  {
    Some(u.remoteId)
  }

  function ReceiverEmail(u: ContactUpdate): Option<string>
  {
    u.email
  }

  function NoEmail(p: Person): RemoteToLocal<Person>
  {
    PullError(p, NoEmailMessage)
  }

  function DeletedPerson(p: Person): RemoteToLocal<Person>
  {
    DeletedOnRemotePlatform(ForgetPersonRemoteId(p))
  }

  function PendingPerson(p: Person): RemoteToLocal<Person>
  {
    NotYetAddedToRemotePlatform(ForgetPersonRemoteId(p))
  }

  /** `filterForPersonsWithEmailOrRemoteId`: despite its name it only asks for
      an email string. The persons with one, in order, and one error per
      person without, in order. */
  function FilterForPersonsWithEmailOrRemoteId(persons: seq<Person>): (r: (seq<Person>, seq<RemoteToLocal<Person>>))
    ensures r.0 == Select(persons, HasEmail, true)
    ensures forall i :: 0 <= i < |r.0| ==> r.0[i].email.Some?
    ensures |r.0| + |r.1| == |persons|
    ensures var rejected := Select(persons, HasEmail, false);
            && |r.1| == |rejected|
            && forall j :: 0 <= j < |r.1| ==> r.1[j] == PullError(rejected[j], NoEmailMessage) && rejected[j].email.None?
    ensures r.1 == Map(NoEmail, Select(persons, HasEmail, false))
  {
    var parts := Partition(persons, HasEmail);
    (parts.0, Map(NoEmail, parts.1))
  }

  /** The local persons that take part in a contact pull: those kept by
      `filterForPersonsWithEmailOrRemoteId`. The pass filters them for an
      email once more before indexing them by email; that second filter keeps
      every one of them (`SecondEmailFilterKeepsAll`), so it is not repeated here. */
  function WithEmail(persons: seq<Person>): seq<Person>
  {
    Select(persons, HasEmail, true)
  }

  /** The second email filter of the contact pull drops nobody. */
  lemma SecondEmailFilterKeepsAll(persons: seq<Person>)
    ensures Select(WithEmail(persons), HasEmail, true) == WithEmail(persons)
  {
    SelectKeepsAll(WithEmail(persons), HasEmail);
  }

  /** The two halves of `partitioningBy(!Check.isEmpty(remoteId, true))`,
      each collected into an `ImmutableSet` (equal persons kept once, in order
      of first occurrence). */
  function WithRemoteId(persons: seq<Person>): seq<Person>
  {
    Dedup(Select(WithEmail(persons), HasRemoteId, true))
  }

  function WithoutRemoteId(persons: seq<Person>): seq<Person>
  {
    Dedup(Select(WithEmail(persons), HasRemoteId, false))
  }

  /** One `ObtainedRemoteId` for every person found by email whose remote id
      is null or empty, in order. */
  function RemoteIdOutcomes(u: ContactUpdate, byEmail: seq<Person>, merge: ReceiverMerge): (r: seq<RemoteToLocal<Person>>)
    ensures r == Map(ObtainRemoteId(u, merge), Select(byEmail, LacksRemoteId, true))
  {
    if byEmail == [] then []
    else
      var p := byEmail[0];
      MapAppend(ObtainRemoteId(u, merge), if LacksRemoteId(p) then [p] else [], Select(byEmail[1..], LacksRemoteId, true));
      (if LacksRemoteId(p) then [ObtainedRemoteId(merge.update(u, p))] else [])
      + RemoteIdOutcomes(u, byEmail[1..], merge)
  }

  /** The outcome for a person found by email that lacks a remote id: the
      collaborator's merged copy of the person. */
  function ObtainRemoteId(u: ContactUpdate, merge: ReceiverMerge): Person -> RemoteToLocal<Person>
  {
    (p: Person) => ObtainedRemoteId(merge.update(u, p))
  }

  /** For every person found by remote id: `ObtainedRemoteEmail` when its
      email differs from the fetched one and, independently,
      `ObtainedEmailBounceInfo` when its activation flag differs. */
  function RemoteDataOutcomes(u: ContactUpdate, byRemoteId: seq<Person>, merge: ReceiverMerge): seq<RemoteToLocal<Person>>
  {
    if byRemoteId == [] then []
    else
      var p := byRemoteId[0];
      (if p.email != u.email then [ObtainedRemoteEmail(merge.update(u, p))] else [])
      + (if p.activated != u.activeOnRemote then [ObtainedEmailBounceInfo(merge.update(u, p))] else [])
      + RemoteDataOutcomes(u, byRemoteId[1..], merge)
  }

  lemma {:induction false} InRemoteIdOutcomes(u: ContactUpdate, byEmail: seq<Person>, merge: ReceiverMerge, o: RemoteToLocal<Person>)
    ensures o in RemoteIdOutcomes(u, byEmail, merge)
            <==> exists p :: p in byEmail && LacksRemoteId(p) && o == ObtainedRemoteId(merge.update(u, p))
  {
    if byEmail != [] {
      InRemoteIdOutcomes(u, byEmail[1..], merge, o);
      assert forall p :: p in byEmail <==> p == byEmail[0] || p in byEmail[1..];
    }
  }

  lemma {:induction false} InRemoteDataOutcomes(u: ContactUpdate, byRemoteId: seq<Person>, merge: ReceiverMerge, o: RemoteToLocal<Person>)
    ensures o in RemoteDataOutcomes(u, byRemoteId, merge)
            <==> exists p :: p in byRemoteId
                   && ((p.email != u.email && o == ObtainedRemoteEmail(merge.update(u, p)))
                       || (p.activated != u.activeOnRemote && o == ObtainedEmailBounceInfo(merge.update(u, p))))
  {
    if byRemoteId != [] {
      InRemoteDataOutcomes(u, byRemoteId[1..], merge, o);
      assert forall p :: p in byRemoteId <==> p == byRemoteId[0] || p in byRemoteId[1..];
    }
  }

  /** The body of the loop over fetched receivers for one receiver `u`. */
  function ReceiverOutcomes(u: ContactUpdate, byEmail: map<Option<string>, seq<Person>>, byRemoteId: map<Option<string>, seq<Person>>, merge: ReceiverMerge)
    : seq<RemoteToLocal<Person>>
  {
    RemoteIdOutcomes(u, Get(byEmail, ReceiverEmail(u)), merge)
    + RemoteDataOutcomes(u, Get(byRemoteId, ReceiverKey(u)), merge)
    + (if ReceiverEmail(u) in byEmail then [] else [ObtainedNewDataRecord(merge.toPerson(u))])
  }

  /** Reference description, over the persons handed in, of what a fetched
      receiver may contribute. */
  predicate ReceiverExplains(u: ContactUpdate, persons: seq<Person>, merge: ReceiverMerge, o: RemoteToLocal<Person>)
  {
    || (exists p :: p in persons && p.email == u.email && LacksRemoteId(p) && o == ObtainedRemoteId(merge.update(u, p)))
    || (exists p :: p in persons && HasEmail(p) && HasRemoteId(p) && p.remoteId == Some(u.remoteId)
          && p.email != u.email && o == ObtainedRemoteEmail(merge.update(u, p)))
    || (exists p :: p in persons && HasEmail(p) && HasRemoteId(p) && p.remoteId == Some(u.remoteId)
          && p.activated != u.activeOnRemote && o == ObtainedEmailBounceInfo(merge.update(u, p)))
    || (o == ObtainedNewDataRecord(merge.toPerson(u)) && forall p :: p in persons ==> p.email != u.email)
  }

  lemma InWithEmail(persons: seq<Person>, p: Person)
    ensures p in WithEmail(persons) <==> p in persons && HasEmail(p)
  {
    InSelect(persons, HasEmail, true, p);
  }

  lemma InWithRemoteId(persons: seq<Person>, p: Person)
    ensures p in WithRemoteId(persons) <==> p in persons && HasEmail(p) && HasRemoteId(p)
  {
    InDedup(Select(WithEmail(persons), HasRemoteId, true), p);
    InSelect(WithEmail(persons), HasRemoteId, true, p);
    InWithEmail(persons, p);
  }

  lemma InWithoutRemoteId(persons: seq<Person>, p: Person)
    ensures p in WithoutRemoteId(persons) <==> p in persons && HasEmail(p) && !HasRemoteId(p)
  {
    InDedup(Select(WithEmail(persons), HasRemoteId, false), p);
    InSelect(WithEmail(persons), HasRemoteId, false, p);
    InWithEmail(persons, p);
  }

  lemma InRemoteIdPart(u: ContactUpdate, persons: seq<Person>, merge: ReceiverMerge, o: RemoteToLocal<Person>)
    requires !IsEmpty(u.email)
    ensures o in RemoteIdOutcomes(u, Get(Index(WithEmail(persons), EmailOf), ReceiverEmail(u)), merge)
            <==> exists p :: p in persons && p.email == u.email && LacksRemoteId(p) && o == ObtainedRemoteId(merge.update(u, p))
  {
    var byEmail := Get(Index(WithEmail(persons), EmailOf), ReceiverEmail(u));
    InRemoteIdOutcomes(u, byEmail, merge, o);
    forall p ensures p in byEmail <==> p in persons && p.email == u.email {
      InIndex(WithEmail(persons), EmailOf, u.email, p);
      InWithEmail(persons, p);
    }
  }

  lemma InRemoteDataPart(u: ContactUpdate, persons: seq<Person>, merge: ReceiverMerge, o: RemoteToLocal<Person>)
    ensures o in RemoteDataOutcomes(u, Get(Index(WithRemoteId(persons), RemoteIdOf), ReceiverKey(u)), merge)
            <==> || (exists p :: p in persons && HasEmail(p) && HasRemoteId(p) && p.remoteId == Some(u.remoteId)
                       && p.email != u.email && o == ObtainedRemoteEmail(merge.update(u, p)))
                 || (exists p :: p in persons && HasEmail(p) && HasRemoteId(p) && p.remoteId == Some(u.remoteId)
                       && p.activated != u.activeOnRemote && o == ObtainedEmailBounceInfo(merge.update(u, p)))
  {
    var byRemoteId := Get(Index(WithRemoteId(persons), RemoteIdOf), ReceiverKey(u));
    InRemoteDataOutcomes(u, byRemoteId, merge, o);
    forall p ensures p in byRemoteId <==> p in persons && HasEmail(p) && HasRemoteId(p) && p.remoteId == Some(u.remoteId) {
      InIndex(WithRemoteId(persons), RemoteIdOf, Some(u.remoteId), p);
      InWithRemoteId(persons, p);
    }
  }

  lemma InNewRecordPart(u: ContactUpdate, persons: seq<Person>)
    requires !IsEmpty(u.email)
    ensures ReceiverEmail(u) in Index(WithEmail(persons), EmailOf) <==> exists p :: p in persons && p.email == u.email
  {
    var valid := WithEmail(persons);
    if ReceiverEmail(u) in Index(valid, EmailOf) {
      var i :| 0 <= i < |valid| && valid[i].email == u.email;
      InWithEmail(persons, valid[i]);
    }
    if p :| p in persons && p.email == u.email {
      InWithEmail(persons, p);
      var i :| 0 <= i < |valid| && valid[i] == p;
      assert EmailOf(valid[i]) in KeySet(valid, EmailOf);
    }
  }

  /** What one fetched receiver contributes is exactly what the reference
      description allows. */
  lemma ReceiverOutcomesMeaning(u: ContactUpdate, persons: seq<Person>, merge: ReceiverMerge, o: RemoteToLocal<Person>)
    requires !IsEmpty(u.email)
    ensures o in ReceiverOutcomes(u, Index(WithEmail(persons), EmailOf), Index(WithRemoteId(persons), RemoteIdOf), merge)
            <==> ReceiverExplains(u, persons, merge, o)
  {
    var byEmail := Index(WithEmail(persons), EmailOf);
    var byRemoteId := Index(WithRemoteId(persons), RemoteIdOf);
    InReceiverOutcomes(u, byEmail, byRemoteId, merge, o);
    InRemoteIdPart(u, persons, merge, o);
    InRemoteDataPart(u, persons, merge, o);
    InNewRecordPart(u, persons);
  }

  lemma InReceiverOutcomes(u: ContactUpdate, byEmail: map<Option<string>, seq<Person>>, byRemoteId: map<Option<string>, seq<Person>>, merge: ReceiverMerge, o: RemoteToLocal<Person>)
    ensures o in ReceiverOutcomes(u, byEmail, byRemoteId, merge)
            <==> || o in RemoteIdOutcomes(u, Get(byEmail, ReceiverEmail(u)), merge)
                 || o in RemoteDataOutcomes(u, Get(byRemoteId, ReceiverKey(u)), merge)
                 || (ReceiverEmail(u) !in byEmail && o == ObtainedNewDataRecord(merge.toPerson(u)))
  {
  }

  /** The body of the receiver loop as a function of the receiver, over the
      two indices built before the loop. */
  function ReceiverStep(persons: seq<Person>, merge: ReceiverMerge): ContactUpdate -> seq<RemoteToLocal<Person>>
  {
    var byEmail := Index(WithEmail(persons), EmailOf);
    var byRemoteId := Index(WithRemoteId(persons), RemoteIdOf);
    (u: ContactUpdate) => ReceiverOutcomes(u, byEmail, byRemoteId, merge)
  }

  /** The receivers from position `i` on, receiver after receiver; the first
      receiver without an email address aborts the whole pass
      (`Check.assumeNotEmpty`). */
  function ReceiversFrom(updates: seq<ContactUpdate>, i: nat, step: ContactUpdate -> seq<RemoteToLocal<Person>>)
    : (r: Result<seq<RemoteToLocal<Person>>, Fault>)
    requires i <= |updates|
    ensures r.Failure? <==> exists j :: i <= j < |updates| && IsEmpty(updates[j].email)
    ensures r.Failure? ==>
              exists j :: && i <= j < |updates| && IsEmpty(updates[j].email)
                          && r.error == ReceiverWithoutEmail(updates[j])
                          && forall k :: i <= k < j ==> !IsEmpty(updates[k].email)
    decreases |updates| - i
  {
    if i == |updates| then Success([])
    else if IsEmpty(updates[i].email) then Failure(ReceiverWithoutEmail(updates[i]))
    else
      match ReceiversFrom(updates, i + 1, step)
      case Failure(f) => Failure(f)
      case Success(rest) => Success(step(updates[i]) + rest)
  }

  /** A successful pass over the receivers yields exactly what the single
      receivers contribute. */
  lemma {:induction false} InReceiversFrom(updates: seq<ContactUpdate>, i: nat, step: ContactUpdate -> seq<RemoteToLocal<Person>>,
                                           o: RemoteToLocal<Person>)
    requires i <= |updates|
    requires ReceiversFrom(updates, i, step).Success?
    ensures o in ReceiversFrom(updates, i, step).value <==> exists j :: i <= j < |updates| && o in step(updates[j])
    decreases |updates| - i
  {
    if i < |updates| {
      InReceiversFrom(updates, i + 1, step, o);
    }
  }

  /** The layout of a successful contact pull: the errors for persons
      without an email, then the receivers' outcomes, in order; then, in some
      order, a deletion for each person of `gone` and a "not yet added" for
      each person of `unsent`, all with the remote id cleared. */
  predicate PullShaped(rs: seq<RemoteToLocal<Person>>, errors: seq<RemoteToLocal<Person>>, found: seq<RemoteToLocal<Person>>,
                       gone: seq<Person>, unsent: seq<Person>)
  {
    var n := |errors| + |found|;
    && |rs| == n + |gone| + |unsent|
    && rs[..|errors|] == errors
    && rs[|errors|..n] == found
    && multiset(rs[n..n + |gone|]) == multiset(Map(DeletedPerson, gone))
    && multiset(rs[n + |gone|..]) == multiset(Map(PendingPerson, unsent))
  }

  lemma Shaped(errors: seq<RemoteToLocal<Person>>, found: seq<RemoteToLocal<Person>>, deleted: seq<RemoteToLocal<Person>>,
               pending: seq<RemoteToLocal<Person>>, gone: seq<Person>, unsent: seq<Person>)
    requires |deleted| == |gone| && multiset(deleted) == multiset(Map(DeletedPerson, gone))
    requires |pending| == |unsent| && multiset(pending) == multiset(Map(PendingPerson, unsent))
    ensures PullShaped(errors + found + deleted + pending, errors, found, gone, unsent)
  {
    ConcatPieces(errors, found, deleted, pending, Map(DeletedPerson, gone), Map(PendingPerson, unsent), |gone|, |unsent|);
  }

  /** `syncContactPersonsRemoteToLocal`, with the fetched receivers as a
      parameter. Persons without an email only yield their errors. Then come
      the outcomes of the receivers, in fetch order; then, in some order, one
      deletion for every person with a remote id no receiver carries; then,
      in some order, one "not yet added" for every person without a remote id
      whose email no receiver carries (both with the remote id cleared). A
      receiver without an email address fails the whole call. */
  function SyncContactPersonsRemoteToLocal(persons: seq<Person>, updates: seq<ContactUpdate>, merge: ReceiverMerge)
    : (r: Result<seq<RemoteToLocal<Person>>, Fault>)
    ensures r.Failure? <==> exists j :: 0 <= j < |updates| && IsEmpty(updates[j].email)
    ensures r.Failure? ==>
              exists j :: && 0 <= j < |updates| && IsEmpty(updates[j].email)
                          && r.error == ReceiverWithoutEmail(updates[j])
                          && forall k :: 0 <= k < j ==> !IsEmpty(updates[k].email)
    ensures r.Success? ==>
              var pass := ReceiversFrom(updates, 0, ReceiverStep(persons, merge));
              && pass.Success?
              && PullShaped(r.value, FilterForPersonsWithEmailOrRemoteId(persons).1, pass.value,
                            KeyFilter(WithRemoteId(persons), RemoteIdOf, KeySet(updates, ReceiverKey), false),
                            KeyFilter(WithoutRemoteId(persons), EmailOf, KeySet(updates, ReceiverEmail), false))
  {
    var errors := FilterForPersonsWithEmailOrRemoteId(persons).1;
    var pass := ReceiversFrom(updates, 0, ReceiverStep(persons, merge));
    if pass.Failure? then Failure(pass.error)
    else
      var gone := Leftovers(WithRemoteId(persons), RemoteIdOf, updates, ReceiverKey, DeletedPerson);
      var unsent := Leftovers(WithoutRemoteId(persons), EmailOf, updates, ReceiverEmail, PendingPerson);
      Shaped(errors, pass.value, gone, unsent,
             KeyFilter(WithRemoteId(persons), RemoteIdOf, KeySet(updates, ReceiverKey), false),
             KeyFilter(WithoutRemoteId(persons), EmailOf, KeySet(updates, ReceiverEmail), false));
      Success(errors + pass.value + gone + unsent)
  }

  /** No fetched receiver carries the remote id of `p`. */
  predicate NoReceiverWithId(p: Person, updates: seq<ContactUpdate>)
  {
    forall j :: 0 <= j < |updates| ==> Some(updates[j].remoteId) != p.remoteId
  }

  /** No fetched receiver carries the email of `p`. */
  predicate NoReceiverWithEmail(p: Person, updates: seq<ContactUpdate>)
  {
    forall j :: 0 <= j < |updates| ==> updates[j].email != p.email
  }

  lemma InShaped(rs: seq<RemoteToLocal<Person>>, errors: seq<RemoteToLocal<Person>>, found: seq<RemoteToLocal<Person>>,
                 gone: seq<Person>, unsent: seq<Person>, o: RemoteToLocal<Person>)
    requires PullShaped(rs, errors, found, gone, unsent)
    ensures o in rs <==> o in errors || o in found || o in Map(DeletedPerson, gone) || o in Map(PendingPerson, unsent)
  {
    var n := |errors| + |found|;
    InPieces(rs, |errors|, n, n + |gone|, o);
    InPermutation(rs[n..n + |gone|], Map(DeletedPerson, gone), o);
    InPermutation(rs[n + |gone|..], Map(PendingPerson, unsent), o);
  }

  lemma InNoEmailErrors(persons: seq<Person>, o: RemoteToLocal<Person>)
    ensures o in FilterForPersonsWithEmailOrRemoteId(persons).1
            <==> exists p :: p in persons && p.email.None? && o == PullError(p, NoEmailMessage)
  {
    var rejected := Select(persons, HasEmail, false);
    InMap(NoEmail, rejected, o);
    if j :| 0 <= j < |rejected| && o == NoEmail(rejected[j]) {
      InSelect(persons, HasEmail, false, rejected[j]);
    }
    if p :| p in persons && p.email.None? && o == NoEmail(p) {
      InSelect(persons, HasEmail, false, p);
      var j :| 0 <= j < |rejected| && rejected[j] == p;
    }
  }

  lemma InFoundReceivers(persons: seq<Person>, updates: seq<ContactUpdate>, merge: ReceiverMerge, o: RemoteToLocal<Person>)
    requires forall j :: 0 <= j < |updates| ==> !IsEmpty(updates[j].email)
    ensures ReceiversFrom(updates, 0, ReceiverStep(persons, merge)).Success?
    ensures o in ReceiversFrom(updates, 0, ReceiverStep(persons, merge)).value
            <==> exists j :: 0 <= j < |updates| && ReceiverExplains(updates[j], persons, merge, o)
  {
    var step := ReceiverStep(persons, merge);
    InReceiversFrom(updates, 0, step, o);
    forall j | 0 <= j < |updates|
      ensures o in step(updates[j]) <==> ReceiverExplains(updates[j], persons, merge, o)
    {
      StepMeaning(updates[j], persons, merge, o);
    }
  }

  lemma StepMeaning(u: ContactUpdate, persons: seq<Person>, merge: ReceiverMerge, o: RemoteToLocal<Person>)
    requires !IsEmpty(u.email)
    ensures o in ReceiverStep(persons, merge)(u) <==> ReceiverExplains(u, persons, merge, o)
  {
    ReceiverOutcomesMeaning(u, persons, merge, o);
  }

  lemma InDeletedPersons(persons: seq<Person>, updates: seq<ContactUpdate>, o: RemoteToLocal<Person>)
    ensures o in Map(DeletedPerson, KeyFilter(WithRemoteId(persons), RemoteIdOf, KeySet(updates, ReceiverKey), false))
            <==> exists p :: p in persons && HasEmail(p) && HasRemoteId(p) && NoReceiverWithId(p, updates) && o == DeletedPerson(p)
  {
    var seen := KeySet(updates, ReceiverKey);
    var gone := KeyFilter(WithRemoteId(persons), RemoteIdOf, seen, false);
    InMap(DeletedPerson, gone, o);
    forall p ensures p in gone <==> p in persons && HasEmail(p) && HasRemoteId(p) && NoReceiverWithId(p, updates) {
      InKeyFilter(WithRemoteId(persons), RemoteIdOf, seen, false, p);
      InWithRemoteId(persons, p);
      if p.remoteId in seen {
        var j :| 0 <= j < |updates| && ReceiverKey(updates[j]) == p.remoteId;
      }
      if j :| 0 <= j < |updates| && Some(updates[j].remoteId) == p.remoteId {
        assert ReceiverKey(updates[j]) in seen;
      }
    }
    if k :| 0 <= k < |gone| && o == DeletedPerson(gone[k]) {
      assert gone[k] in gone;
    }
    if p :| p in persons && HasEmail(p) && HasRemoteId(p) && NoReceiverWithId(p, updates) && o == DeletedPerson(p) {
      var k :| 0 <= k < |gone| && gone[k] == p;
    }
  }

  lemma InPendingPersons(persons: seq<Person>, updates: seq<ContactUpdate>, o: RemoteToLocal<Person>)
    ensures o in Map(PendingPerson, KeyFilter(WithoutRemoteId(persons), EmailOf, KeySet(updates, ReceiverEmail), false))
            <==> exists p :: p in persons && HasEmail(p) && !HasRemoteId(p) && NoReceiverWithEmail(p, updates) && o == PendingPerson(p)
  {
    var seen := KeySet(updates, ReceiverEmail);
    var unsent := KeyFilter(WithoutRemoteId(persons), EmailOf, seen, false);
    InMap(PendingPerson, unsent, o);
    forall p ensures p in unsent <==> p in persons && HasEmail(p) && !HasRemoteId(p) && NoReceiverWithEmail(p, updates) {
      InKeyFilter(WithoutRemoteId(persons), EmailOf, seen, false, p);
      InWithoutRemoteId(persons, p);
      if p.email in seen {
        var j :| 0 <= j < |updates| && ReceiverEmail(updates[j]) == p.email;
      }
      if j :| 0 <= j < |updates| && updates[j].email == p.email {
        assert ReceiverEmail(updates[j]) in seen;
      }
    }
    if k :| 0 <= k < |unsent| && o == PendingPerson(unsent[k]) {
      assert unsent[k] in unsent;
    }
    if p :| p in persons && HasEmail(p) && !HasRemoteId(p) && NoReceiverWithEmail(p, updates) && o == PendingPerson(p) {
      var k :| 0 <= k < |unsent| && unsent[k] == p;
    }
  }

  /** When every receiver has an email the contact pull succeeds, and each of
      its outcomes is an error for a person without email, is explained by one
      receiver, is the deletion of a person whose remote id no receiver
      carries, or marks a person without remote id whose email no receiver
      carries as not yet added; every such outcome occurs. */
  lemma ContactPullOutcomes(persons: seq<Person>, updates: seq<ContactUpdate>, merge: ReceiverMerge, o: RemoteToLocal<Person>)
    requires forall j :: 0 <= j < |updates| ==> !IsEmpty(updates[j].email)
    ensures SyncContactPersonsRemoteToLocal(persons, updates, merge).Success?
    ensures o in SyncContactPersonsRemoteToLocal(persons, updates, merge).value
            <==> || (exists p :: p in persons && p.email.None? && o == PullError(p, NoEmailMessage))
                 || (exists j :: 0 <= j < |updates| && ReceiverExplains(updates[j], persons, merge, o))
                 || (exists p :: p in persons && HasEmail(p) && HasRemoteId(p) && NoReceiverWithId(p, updates) && o == DeletedPerson(p))
                 || (exists p :: p in persons && HasEmail(p) && !HasRemoteId(p) && NoReceiverWithEmail(p, updates) && o == PendingPerson(p))
  {
    var r := SyncContactPersonsRemoteToLocal(persons, updates, merge);
    var pass := ReceiversFrom(updates, 0, ReceiverStep(persons, merge));
    InShaped(r.value, FilterForPersonsWithEmailOrRemoteId(persons).1, pass.value,
             KeyFilter(WithRemoteId(persons), RemoteIdOf, KeySet(updates, ReceiverKey), false),
             KeyFilter(WithoutRemoteId(persons), EmailOf, KeySet(updates, ReceiverEmail), false), o);
    InNoEmailErrors(persons, o);
    InFoundReceivers(persons, updates, merge, o);
    InDeletedPersons(persons, updates, o);
    InPendingPersons(persons, updates, o);
  }

  /** A person with an email and a remote id that no fetched receiver carries
      is reported as deleted on the platform, with its remote id cleared. */
  lemma PersonDeletedOnRemote(persons: seq<Person>, updates: seq<ContactUpdate>, merge: ReceiverMerge, i: nat)
    requires forall j :: 0 <= j < |updates| ==> !IsEmpty(updates[j].email)
    requires i < |persons| && persons[i].email.Some? && !IsBlank(persons[i].remoteId)
    requires forall j :: 0 <= j < |updates| ==> Some(updates[j].remoteId) != persons[i].remoteId
    ensures DeletedOnRemotePlatform(persons[i].(remoteId := None)) in SyncContactPersonsRemoteToLocal(persons, updates, merge).value
  {
    var p := persons[i];
    assert p in persons && HasEmail(p) && HasRemoteId(p) && NoReceiverWithId(p, updates);
    ContactPullOutcomes(persons, updates, merge, DeletedPerson(p));
  }

  /** A person with an email but no remote id whose email no fetched
      receiver carries is reported as not yet added to the platform. */
  lemma PersonNotYetAdded(persons: seq<Person>, updates: seq<ContactUpdate>, merge: ReceiverMerge, i: nat)
    requires forall j :: 0 <= j < |updates| ==> !IsEmpty(updates[j].email)
    requires i < |persons| && persons[i].email.Some? && IsBlank(persons[i].remoteId)
    requires forall j :: 0 <= j < |updates| ==> updates[j].email != persons[i].email
    ensures NotYetAddedToRemotePlatform(persons[i].(remoteId := None)) in SyncContactPersonsRemoteToLocal(persons, updates, merge).value
  {
    var p := persons[i];
    assert p in persons && HasEmail(p) && !HasRemoteId(p) && NoReceiverWithEmail(p, updates);
    ContactPullOutcomes(persons, updates, merge, PendingPerson(p));
  }

  /** A receiver that matches no local person, neither by email nor by remote
      id, yields exactly one new data record. */
  lemma UnknownReceiverIsNewRecord(u: ContactUpdate, persons: seq<Person>, merge: ReceiverMerge)
    requires !IsEmpty(u.email)
    requires forall i :: 0 <= i < |persons| ==> persons[i].email != u.email && persons[i].remoteId != Some(u.remoteId)
    ensures ReceiverOutcomes(u, Index(WithEmail(persons), EmailOf), Index(WithRemoteId(persons), RemoteIdOf), merge)
            == [ObtainedNewDataRecord(merge.toPerson(u))]
  {
    forall i | 0 <= i < |WithEmail(persons)| ensures WithEmail(persons)[i].email != u.email {
      InWithEmail(persons, WithEmail(persons)[i]);
    }
    forall i | 0 <= i < |WithRemoteId(persons)| ensures WithRemoteId(persons)[i].remoteId != Some(u.remoteId) {
      InWithRemoteId(persons, WithRemoteId(persons)[i]);
    }
    NothingFiled(WithEmail(persons), EmailOf, u.email);
    NothingFiled(WithRemoteId(persons), RemoteIdOf, Some(u.remoteId));
    InNewRecordPart(u, persons);
  }
}
