/**
 The local-to-remote direction of the CleverReach client: pushing contact
 persons as receivers of a group (one batch upsert whose response list is
 correlated with the request by position) and pushing campaigns as groups.
 The platform's response list is a parameter; the request itself is not
 modelled.
 */
module Push {
  import opened Model
  import opened Seqs
  import opened Multimap
  import opened AddressFailure

  const NoValidEmailMessage: string := "Contact person has no (valid) email address"

  /** One entry of the batch-upsert response: a string, a JSON object (its
      values rendered with `String.valueOf`), or anything else (rendered as
      string concatenation renders it). */
  datatype ResponseEntry =
    | Text(text: string)
    | Object(fields: map<string, string>)
    | Other(rendered: string)

  /** The push filter: `EmailValidator.isValid` of the email string; a person
      without an email string is never valid. */
  function ValidEmail(isValid: string -> bool): Person -> bool
  {
    (p: Person) => p.email.Some? && isValid(p.email.value)
  }

  function Reject(p: Person): LocalToRemote<Person>
  {
    PushError(p, NoValidEmailMessage)
  }

  /** `filterForPersonsWithEmail`: the persons with a valid email, in order,
      and one error per person without, in order. */
  function FilterForPersonsWithEmail(persons: seq<Person>, isValid: string -> bool)
    : (r: (seq<Person>, seq<LocalToRemote<Person>>))
    ensures r.0 == Select(persons, ValidEmail(isValid), true)
    ensures forall i :: 0 <= i < |r.0| ==> r.0[i].email.Some? && isValid(r.0[i].email.value)
    ensures |r.0| + |r.1| == |persons|
    ensures var rejected := Select(persons, ValidEmail(isValid), false);
            && |r.1| == |rejected|
            && (forall j :: 0 <= j < |r.1| ==> r.1[j] == PushError(rejected[j], NoValidEmailMessage))
            && (forall j :: 0 <= j < |rejected| ==> !(rejected[j].email.Some? && isValid(rejected[j].email.value)))
  {
    var parts := Partition(persons, ValidEmail(isValid));
    (parts.0, Map(Reject, parts.1))
  }

  /** `isNotEmptyString`: a string entry holding some character other than
      white space. */
  predicate IsNotEmptyString(entry: ResponseEntry)
  {
    entry.Text? && !IsBlank(Some(entry.text))
  }

  /** A response entry is a non-empty string exactly when it is a string that
      `String.trim` does not empty. */
  lemma NotEmptyStringSurvivesTrim(entry: ResponseEntry)
    ensures IsNotEmptyString(entry) <==> entry.Text? && Trim(entry.text) != ""
  {
    if entry.Text? {
      TrimmedEmptyIffBlank(entry.text);
    }
  }

  function UnexpectedResult(rendered: string): string
  {
    "Unexpected result='" + rendered + "'"
  }

  /** `createErrorResults`: one error, carrying the platform's message, for
      every person filed under the rejected address. */
  function CreateErrorResults(emailIndex: map<Option<string>, seq<Person>>, info: InvalidEmail)
    : (r: seq<LocalToRemote<Person>>)
    ensures |r| == |Get(emailIndex, Some(info.email))|
    ensures forall j :: 0 <= j < |r| ==> r[j] == PushError(Get(emailIndex, Some(info.email))[j], info.errorMessage)
  {
    Map((p: Person) => PushError(p, info.errorMessage), Get(emailIndex, Some(info.email)))
  }

  /** The outcomes contributed by the response entry that answers `person`.
      `valid` is the list that was sent and `emailIndex` its index by email. */
  function ClassifyEntry(entry: ResponseEntry, person: Person, valid: seq<Person>, emailIndex: map<Option<string>, seq<Person>>)
    : (r: seq<LocalToRemote<Person>>)
    requires emailIndex == Index(valid, EmailOf)
    ensures entry.Object? && "id" in entry.fields ==> r == [Upserted(person.(remoteId := Some(entry.fields["id"])))]
    ensures entry.Object? && "id" !in entry.fields ==> r == []
    ensures entry.Other? ==> r == [PushError(person, UnexpectedResult(entry.rendered))]
    ensures entry.Text? && IsBlank(Some(entry.text)) ==> r == [PushError(person, UnexpectedResult(entry.text))]
    ensures IsNotEmptyString(entry) && CreateInvalidEmailInfo(entry.text).None? ==> r == []
    ensures IsNotEmptyString(entry) && CreateInvalidEmailInfo(entry.text).Some? ==>
              var sharing := Matching(valid, EmailOf, Some(CreateInvalidEmailInfo(entry.text).value.email));
              && |r| == |sharing|
              && forall j :: 0 <= j < |r| ==> r[j] == PushError(sharing[j], entry.text)
  {
    if IsNotEmptyString(entry) then
      match CreateInvalidEmailInfo(entry.text)
      case Some(info) => CreateErrorResults(emailIndex, info)
      case None => []
    else if entry.Object? then
      if "id" in entry.fields then [Upserted(person.(remoteId := Some(entry.fields["id"])))] else []
    else if entry.Other? then
      [PushError(person, UnexpectedResult(entry.rendered))]
    else
      [PushError(person, UnexpectedResult(entry.text))]
  }

  /** The outcomes of the response entries from position `i` on, entry after entry. */
  function ClassifyFrom(responses: seq<ResponseEntry>, valid: seq<Person>, emailIndex: map<Option<string>, seq<Person>>, i: nat)
    : seq<LocalToRemote<Person>>
    requires |responses| == |valid| && i <= |valid|
    requires emailIndex == Index(valid, EmailOf)
    decreases |valid| - i
  {
    if i == |valid| then []
    else ClassifyEntry(responses[i], valid[i], valid, emailIndex) + ClassifyFrom(responses, valid, emailIndex, i + 1)
  }

  /** `syncContactPersonsLocalToRemote`, with the platform's response list as
      a parameter. Persons without a valid email only yield their errors; when
      none is left, no request is made and `responses` is not consulted; a
      response list of the wrong length fails the whole call. */
  function SyncContactPersonsLocalToRemote(persons: seq<Person>, isValid: string -> bool, responses: seq<ResponseEntry>)
    : (r: Result<seq<LocalToRemote<Person>>, Fault>)
    ensures var (valid, errors) := FilterForPersonsWithEmail(persons, isValid);
            && (valid == [] ==> r == Success(errors))
            && (valid != [] && |responses| != |valid| ==> r == Failure(ResponseCountMismatch(|responses|, |valid|)))
            && (valid != [] && |responses| == |valid| ==> r.Success? && |errors| <= |r.value| && r.value[..|errors|] == errors)
  {
    var (valid, errors) := FilterForPersonsWithEmail(persons, isValid);
    var emailIndex := Index(valid, EmailOf);
    if valid == [] then Success(errors)
    else if |responses| != |valid| then Failure(ResponseCountMismatch(|responses|, |valid|))
    else Success(errors + ClassifyFrom(responses, valid, emailIndex, 0))
  }

  /** The persons a push sends: those with a valid email, in input order. */
  function Sent(persons: seq<Person>, isValid: string -> bool): seq<Person>
  {
    FilterForPersonsWithEmail(persons, isValid).0
  }

  lemma {:induction false} ClassifyFromOutcomes(responses: seq<ResponseEntry>, valid: seq<Person>, i: nat, o: LocalToRemote<Person>)
    requires |responses| == |valid| && i <= |valid|
    ensures var idx := Index(valid, EmailOf);
            o in ClassifyFrom(responses, valid, idx, i)
            <==> exists j :: i <= j < |valid| && o in ClassifyEntry(responses[j], valid[j], valid, idx)
    decreases |valid| - i
  {
    var idx := Index(valid, EmailOf);
    if i < |valid| {
      var here := ClassifyEntry(responses[i], valid[i], valid, idx);
      var later := ClassifyFrom(responses, valid, idx, i + 1);
      assert ClassifyFrom(responses, valid, idx, i) == here + later;
      ClassifyFromOutcomes(responses, valid, i + 1, o);
      if o in here {
        assert i <= i < |valid| && o in ClassifyEntry(responses[i], valid[i], valid, idx);
      }
      if exists j :: i <= j < |valid| && o in ClassifyEntry(responses[j], valid[j], valid, idx) {
        var j :| i <= j < |valid| && o in ClassifyEntry(responses[j], valid[j], valid, idx);
        if j == i {
          assert o in here;
        } else {
          assert o in later;
        }
      }
    }
  }

  /** A successful push reports exactly the filter's errors and the outcomes
      of the individual response entries, each judged against the person sent
      at its position. */
  lemma PushOutcomes(persons: seq<Person>, isValid: string -> bool, responses: seq<ResponseEntry>, o: LocalToRemote<Person>)
    requires SyncContactPersonsLocalToRemote(persons, isValid, responses).Success?
    ensures var valid := Sent(persons, isValid);
            var errors := FilterForPersonsWithEmail(persons, isValid).1;
            o in SyncContactPersonsLocalToRemote(persons, isValid, responses).value
            <==> o in errors
                 || exists i :: 0 <= i < |valid| && i < |responses|
                                && o in ClassifyEntry(responses[i], valid[i], valid, Index(valid, EmailOf))
  {
    var valid := Sent(persons, isValid);
    if valid != [] {
      ClassifyFromOutcomes(responses, valid, 0, o);
    }
  }

  /** A push upserts `q` exactly when the response at some position i is an
      object with an "id" and `q` is the i-th person sent carrying that id as
      its remote id, every other field unchanged. */
  lemma PushUpserts(persons: seq<Person>, isValid: string -> bool, responses: seq<ResponseEntry>, q: Person)
    requires SyncContactPersonsLocalToRemote(persons, isValid, responses).Success?
    ensures var valid := Sent(persons, isValid);
            Upserted(q) in SyncContactPersonsLocalToRemote(persons, isValid, responses).value
            <==> exists i :: 0 <= i < |valid| && i < |responses| && responses[i].Object? && "id" in responses[i].fields
                            && q == valid[i].(remoteId := Some(responses[i].fields["id"]))
  {
    var valid := Sent(persons, isValid);
    var errors := FilterForPersonsWithEmail(persons, isValid).1;
    var idx := Index(valid, EmailOf);
    PushOutcomes(persons, isValid, responses, Upserted(q));
    assert Upserted(q) !in errors;
    forall i | 0 <= i < |valid| && i < |responses|
      ensures Upserted(q) in ClassifyEntry(responses[i], valid[i], valid, idx)
              <==> responses[i].Object? && "id" in responses[i].fields
                   && q == valid[i].(remoteId := Some(responses[i].fields["id"]))
    {
      EntryUpserts(responses[i], valid[i], valid, q);
    }
  }

  /** Only an object with an "id" upserts, and it upserts the person it answers. */
  lemma EntryUpserts(entry: ResponseEntry, person: Person, valid: seq<Person>, q: Person)
    ensures Upserted(q) in ClassifyEntry(entry, person, valid, Index(valid, EmailOf))
            <==> entry.Object? && "id" in entry.fields && q == person.(remoteId := Some(entry.fields["id"]))
  {
    var idx := Index(valid, EmailOf);
    var r := ClassifyEntry(entry, person, valid, idx);
    if IsNotEmptyString(entry) {
      match CreateInvalidEmailInfo(entry.text)
      case Some(info) =>
        var errors := CreateErrorResults(idx, info);
        assert r == errors;
        assert forall j :: 0 <= j < |errors| ==> errors[j].PushError?;
      case None =>
        assert r == [];
    }
  }

  /** When the platform answers position i with a recognised address failure,
      every person sent with that address gets an error carrying the whole
      message, not only the i-th one. */
  lemma PushFansOutAddressFailures(persons: seq<Person>, isValid: string -> bool, responses: seq<ResponseEntry>, i: nat, p: Person)
    requires SyncContactPersonsLocalToRemote(persons, isValid, responses).Success?
    requires i < |Sent(persons, isValid)| && i < |responses|
    requires IsNotEmptyString(responses[i]) && CreateInvalidEmailInfo(responses[i].text).Some?
    requires p in Sent(persons, isValid) && p.email == Some(CreateInvalidEmailInfo(responses[i].text).value.email)
    ensures PushError(p, responses[i].text) in SyncContactPersonsLocalToRemote(persons, isValid, responses).value
  {
    var valid := Sent(persons, isValid);
    EntryFansOut(responses[i], valid[i], valid, p);
    PushOutcomes(persons, isValid, responses, PushError(p, responses[i].text));
  }

  /** A recognised address failure reports every sent person with that address. */
  lemma EntryFansOut(entry: ResponseEntry, person: Person, valid: seq<Person>, p: Person)
    requires IsNotEmptyString(entry) && CreateInvalidEmailInfo(entry.text).Some?
    requires p in valid && p.email == Some(CreateInvalidEmailInfo(entry.text).value.email)
    ensures PushError(p, entry.text) in ClassifyEntry(entry, person, valid, Index(valid, EmailOf))
  {
    var info := CreateInvalidEmailInfo(entry.text).value;
    var idx := Index(valid, EmailOf);
    InIndex(valid, EmailOf, Some(info.email), p);
    var sharing := Get(idx, Some(info.email));
    var j :| 0 <= j < |sharing| && sharing[j] == p;
    assert CreateErrorResults(idx, info)[j] == PushError(p, info.errorMessage);
  }

  /** A response entry that is neither an object nor a non-blank string is
      reported as unexpected against the person sent at its position. */
  lemma PushReportsUnexpectedEntries(persons: seq<Person>, isValid: string -> bool, responses: seq<ResponseEntry>, i: nat)
    requires SyncContactPersonsLocalToRemote(persons, isValid, responses).Success?
    requires i < |Sent(persons, isValid)| && i < |responses|
    requires !IsNotEmptyString(responses[i]) && !responses[i].Object?
    ensures var rendered := if responses[i].Text? then responses[i].text else responses[i].rendered;
            PushError(Sent(persons, isValid)[i], UnexpectedResult(rendered))
              in SyncContactPersonsLocalToRemote(persons, isValid, responses).value
  {
    var valid := Sent(persons, isValid);
    var rendered := if responses[i].Text? then responses[i].text else responses[i].rendered;
    assert PushError(valid[i], UnexpectedResult(rendered)) in ClassifyEntry(responses[i], valid[i], valid, Index(valid, EmailOf));
    PushOutcomes(persons, isValid, responses, PushError(valid[i], UnexpectedResult(rendered)));
  }

  /** An email validator that accepts every address. */
  function AcceptAll(address: string): bool { true }

  /** Two persons are pushed; the platform upserts the first and rejects the
      second as a duplicate. */
  lemma PushScenario(p1: Person, p2: Person, duplicate: string, responses: seq<ResponseEntry>)
    requires p1 == Person(1, Some("a@x.com"), None, None) && p2 == Person(2, Some("b@x.com"), None, None)
    requires duplicate == "duplicate address 'b@x.com'"
    requires responses == [Object(map["id" := "101"]), Text(duplicate)]
    ensures SyncContactPersonsLocalToRemote([p1, p2], AcceptAll, responses)
            == Success([Upserted(p1.(remoteId := Some("101"))), PushError(p2, duplicate)])
  {
    var persons := [p1, p2];
    var idx := Index(persons, EmailOf);
    var outcomes := [Upserted(p1.(remoteId := Some("101"))), PushError(p2, duplicate)];
    assert SyncContactPersonsLocalToRemote(persons, AcceptAll, responses)
        == Success([] + ClassifyFrom(responses, persons, idx, 0)) by {
      ScenarioFilter(persons);
    }
    assert [] + ClassifyFrom(responses, persons, idx, 0) == outcomes by {
      ScenarioClassify(p1, p2, duplicate, responses);
    }
  }

  lemma ScenarioClassify(p1: Person, p2: Person, duplicate: string, responses: seq<ResponseEntry>)
    requires p1 == Person(1, Some("a@x.com"), None, None) && p2 == Person(2, Some("b@x.com"), None, None)
    requires duplicate == "duplicate address 'b@x.com'"
    requires responses == [Object(map["id" := "101"]), Text(duplicate)]
    ensures ClassifyFrom(responses, [p1, p2], Index([p1, p2], EmailOf), 0)
            == [Upserted(p1.(remoteId := Some("101"))), PushError(p2, duplicate)]
  {
    var persons := [p1, p2];
    var idx := Index(persons, EmailOf);
    var upserted := ClassifyEntry(responses[0], persons[0], persons, idx);
    var rejected := ClassifyEntry(responses[1], persons[1], persons, idx);
    assert ClassifyFrom(responses, persons, idx, 0) == upserted + rejected by {
      ClassifyTwo(responses, persons);
    }
    assert upserted == [Upserted(p1.(remoteId := Some("101")))] by {
      ScenarioUpsert(p1, persons, responses[0]);
    }
    assert rejected == [PushError(p2, duplicate)] by {
      ScenarioReject(p1, p2, duplicate, responses[1]);
    }
  }

  /** A push of two persons yields the outcomes of the first entry, then those of the second. */
  lemma ClassifyTwo(responses: seq<ResponseEntry>, valid: seq<Person>)
    requires |responses| == |valid| == 2
    ensures var idx := Index(valid, EmailOf);
            ClassifyFrom(responses, valid, idx, 0)
            == ClassifyEntry(responses[0], valid[0], valid, idx) + ClassifyEntry(responses[1], valid[1], valid, idx)
  {
    var idx := Index(valid, EmailOf);
    assert ClassifyFrom(responses, valid, idx, 2) == [];
    assert ClassifyFrom(responses, valid, idx, 1) == ClassifyEntry(responses[1], valid[1], valid, idx);
  }

  lemma ScenarioUpsert(p1: Person, persons: seq<Person>, entry: ResponseEntry)
    requires entry == Object(map["id" := "101"])
    ensures ClassifyEntry(entry, p1, persons, Index(persons, EmailOf)) == [Upserted(p1.(remoteId := Some("101")))]
  {
    assert "id" in entry.fields && entry.fields["id"] == "101";
  }

  lemma ScenarioReject(p1: Person, p2: Person, duplicate: string, entry: ResponseEntry)
    requires p1.email == Some("a@x.com") && p2.email == Some("b@x.com")
    requires duplicate == "duplicate address 'b@x.com'"
    requires entry == Text(duplicate)
    ensures ClassifyEntry(entry, p2, [p1, p2], Index([p1, p2], EmailOf)) == [PushError(p2, duplicate)]
  {
    ScenarioRecognition(duplicate);
    ScenarioMatching(p1, p2);
  }

  lemma ScenarioFilter(persons: seq<Person>)
    requires forall i :: 0 <= i < |persons| ==> persons[i].email.Some?
    ensures FilterForPersonsWithEmail(persons, AcceptAll) == (persons, [])
  {
    forall i | 0 <= i < |persons| ensures ValidEmail(AcceptAll)(persons[i]) {
      assert AcceptAll(persons[i].email.value);
    }
    SelectKeepsAll(persons, ValidEmail(AcceptAll));
  }

  lemma ScenarioRecognition(duplicate: string)
    requires duplicate == "duplicate address 'b@x.com'"
    ensures IsNotEmptyString(Text(duplicate))
    ensures CreateInvalidEmailInfo(duplicate) == Some(InvalidEmail("b@x.com", duplicate))
  {
    var a := "b@x.com";
    assert SingleLine(a);
    assert forall i :: 0 <= i < |a| ==> a[i] != '\'';
    DuplicateAddressRoundTrip(a, duplicate);
    assert duplicate[0] > ' ';
  }

  lemma ScenarioMatching(p1: Person, p2: Person)
    requires p1.email == Some("a@x.com") && p2.email == Some("b@x.com")
    ensures Matching([p1, p2], EmailOf, Some("b@x.com")) == [p2]
  {
    assert [p1, p2][1..] == [p2];
    assert KeyFilter([p2], EmailOf, {Some("b@x.com")}, true) == [p2] by {
      assert [p2][1..] == [];
    }
    assert EmailOf(p1) !in {Some("b@x.com")};
  }

  /** `createOrUpdateGroup`: a campaign without remote id is created on the
      platform, any other one updated; either way the outcome carries it unchanged. */
  function CreateOrUpdateGroup(c: Campaign): (r: LocalToRemote<Campaign>)
    ensures r.Inserted? || r.Updated?
    ensures r.entity == c
    ensures r.Inserted? <==> IsEmpty(c.remoteId)
  {
    if IsEmpty(c.remoteId) then Inserted(c) else Updated(c)
  }

  /** `syncCampaignsLocalToRemote`: one outcome per campaign, in input order. */
  function SyncCampaignsLocalToRemote(campaigns: seq<Campaign>): (r: seq<LocalToRemote<Campaign>>)
    ensures |r| == |campaigns|
    ensures forall i :: 0 <= i < |r| ==> r[i].entity == campaigns[i]
    ensures forall i :: 0 <= i < |r| ==> (r[i].Inserted? <==> IsEmpty(campaigns[i].remoteId))
    ensures forall i :: 0 <= i < |r| ==> (r[i].Updated? <==> !IsEmpty(campaigns[i].remoteId))
  {
    Map(CreateOrUpdateGroup, campaigns)
  }
}
