/**
 The data the CleverReach platform client works on: local campaigns and
 contact persons, the snapshots fetched from the platform (groups and
 receivers), the two result vocabularies of a synchronisation pass, and the
 two flavours of "empty string" the client tests for.
 */
module Model {

  datatype Option<+T> = None | Some(value: T)

  /** A whole call either returns its outcome list or fails as a unit. */
  datatype Result<+T, +E> = Success(value: T) | Failure(error: E)

  /** `Check.isEmpty(String)`: null or the empty string. */
  predicate IsEmpty(s: Option<string>)
  {
    s.None? || s.value == ""
  }

  /** `Check.isEmpty(String, true)`: null, or nothing left after `String.trim`,
      which strips every character up to and including the space. */
  predicate IsBlank(s: Option<string>)
  {
    s.None? || forall i :: 0 <= i < |s.value| ==> s.value[i] <= ' '
  }

  /** `r` is the piece `s[i..j]` of `s`, and everything cut off on either
      side is at most the space. */
  predicate TrimmedPiece(s: string, r: string, i: nat, j: nat)
  {
    && i <= j <= |s| && r == s[i..j]
    && (forall k :: 0 <= k < i ==> s[k] <= ' ')
    && (forall k :: j <= k < |s| ==> s[k] <= ' ')
  }

  /** `String.trim`: the string without its leading and trailing characters
      up to and including the space. */
  function Trim(s: string): (r: string)
    ensures exists i, j :: TrimmedPiece(s, r, i, j)
    ensures r != [] ==> r[0] > ' ' && r[|r| - 1] > ' '
  {
    var i := LeadingBlanks(s);
    var j := i + KeptLength(s[i..]);
    var r := s[i..j];
    assert TrimmedPiece(s, r, i, j) by {
      forall k | j <= k < |s|
        ensures s[k] <= ' '
      {
        assert s[k] == s[i..][k - i];
      }
    }
    r
  }

  /** The number of characters up to the space at the start of `s`. */
  function LeadingBlanks(s: string): (i: nat)
    ensures i <= |s|
    ensures forall k :: 0 <= k < i ==> s[k] <= ' '
    ensures i < |s| ==> s[i] > ' '
  {
    if s == [] || s[0] > ' ' then 0 else 1 + LeadingBlanks(s[1..])
  }

  /** The length of `s` without the characters up to the space at its end. */
  function KeptLength(s: string): (j: nat)
    ensures j <= |s|
    ensures forall k :: j <= k < |s| ==> s[k] <= ' '
    ensures j > 0 ==> s[j - 1] > ' '
  {
    if s == [] || s[|s| - 1] > ' ' then |s| else KeptLength(s[..|s| - 1])
  }

  /** A string is blank exactly when trimming leaves nothing of it. */
  lemma {:induction false} TrimmedEmptyIffBlank(s: string)
    ensures Trim(s) == "" <==> IsBlank(Some(s))
  {
    var i := LeadingBlanks(s);
    var j := i + KeptLength(s[i..]);
    if Trim(s) == "" {
      assert j == i;
    } else {
      assert Trim(s)[0] == s[i] > ' ';
    }
  }

  /** A local contact person. `email` and `activated` are the string and the
      activation flag of its email address (either may be null), `remoteId` the
      receiver id on the platform once known; `localId` stands for every other
      field, which the client copies without looking at it. */
  datatype Person = Person(localId: int, email: Option<string>, activated: Option<bool>, remoteId: Option<string>)

  /** A local campaign; its remote counterpart is a group. */
  datatype Campaign = Campaign(localId: int, name: string, remoteId: Option<string>)

  /** A receiver fetched from the platform, with the getters of its email
      address already applied: its address string and whether the platform
      still considers the address active. */
  datatype ContactUpdate = ContactUpdate(remoteId: string, email: Option<string>, activeOnRemote: Option<bool>)

  /** A group fetched from the platform. */
  datatype CampaignUpdate = CampaignUpdate(remoteId: string, name: string)

  /** Outcomes of pushing local records to the platform. */
  datatype LocalToRemote<+E> =
    | Inserted(entity: E)
    | Updated(entity: E)
    | Upserted(entity: E)
    | PushError(entity: E, message: string)

  /** Outcomes of pulling the platform's state into the local records. */
  datatype RemoteToLocal<+E> =
    | NoChanges(entity: E)
    | ObtainedNewDataRecord(entity: E)
    | ObtainedOtherRemoteData(entity: E)
    | ObtainedRemoteId(entity: E)
    | ObtainedRemoteEmail(entity: E)
    | ObtainedEmailBounceInfo(entity: E)
    | DeletedOnRemotePlatform(entity: E)
    | NotYetAddedToRemotePlatform(entity: E)
    | PullError(entity: E, message: string)

  /** Failures that abort a whole synchronisation call. */
  datatype Fault =
    | ResponseCountMismatch(results: nat, sent: nat)
    | ReceiverWithoutEmail(update: ContactUpdate)

  /** The copy of a record with its remote id cleared (`toBuilder().remoteId(null).build()`). */
  function ForgetPersonRemoteId(p: Person): (q: Person)
    ensures q.remoteId.None? && q.(remoteId := p.remoteId) == p
  {
    p.(remoteId := None)
  }

  function ForgetCampaignRemoteId(c: Campaign): (d: Campaign)
    ensures d.remoteId.None? && d.(remoteId := c.remoteId) == c
  {
    c.(remoteId := None)
  }

  function EmailOf(p: Person): Option<string> { p.email }

  function RemoteIdOf(p: Person): Option<string> { p.remoteId }

  function CampaignRemoteIdOf(c: Campaign): Option<string> { c.remoteId }
}
