/** Cache tags of the prescription endpoints. Every query result is labelled
    with tags; a mutation names the tags it invalidates, and a cached query
    is fetched again when one of its tags is invalidated. All tags have the
    type "Prescription", so only their ids are modelled. */
module PrescriptionCache {
  import opened Wrappers
  import opened Text

  /** A tag id: a prescription's numeric id, or a named scope. */
  datatype TagId = ItemTag(prescId: int) | ScopeTag(name: String)

  const ListTag: TagId := ScopeTag("LIST")

  function UserScope(userId: int): (t: TagId)
    ensures t.ScopeTag? && StartsWith(t.name, "USER-")
  {
    ScopeTag("USER-" + IntToString(userId))
  }

  function DoctorUserScope(docId: int, userId: int): (t: TagId)
    ensures t.ScopeTag? && StartsWith(t.name, "DOCTOR-")
  {
    ScopeTag("DOCTOR-" + IntToString(docId) + "-USER-" + IntToString(userId))
  }

  /** The scope tags name distinct scopes: distinct users get distinct
      tags, a doctor-and-user tag is never a user tag, and neither is the
      list tag. */
  lemma ScopesDistinct(u1: int, u2: int, d1: int)
    ensures UserScope(u1) == UserScope(u2) ==> u1 == u2
    ensures DoctorUserScope(d1, u1) != UserScope(u2)
    ensures UserScope(u1) != ListTag && DoctorUserScope(d1, u1) != ListTag
  {
    if UserScope(u1) == UserScope(u2) {
      var a := IntToString(u1);
      var b := IntToString(u2);
      assert a == ("USER-" + a)[5..] == ("USER-" + b)[5..] == b;
      IntToStringInjective(u1, u2);
    }
    assert UserScope(u1).name[0] == 'U';
    assert DoctorUserScope(d1, u1).name[0] == 'D';
  }

  /** One tag per returned prescription, in order. */
  function ItemTags(ids: seq<int>): (r: seq<TagId>)
    ensures |r| == |ids|
    ensures forall i :: 0 <= i < |r| ==> r[i] == ItemTag(ids[i])
  {
    seq(|ids|, i requires 0 <= i < |ids| => ItemTag(ids[i]))
  }

  /** The tags a query provides: its items' tags then its scope tag, or only
      the scope tag when there is no result. */
  function Provided(result: Option<seq<int>>, scope: TagId): (r: seq<TagId>)
    ensures result.None? ==> r == [scope]
    ensures result.Some? ==> |r| == |result.value| + 1 && r[|result.value|] == scope
    ensures result.Some? ==> r[..|result.value|] == ItemTags(result.value)
  {
    if result.Some? then ItemTags(result.value) + [scope] else [scope]
  }

  function AllPrescriptionsTags(result: Option<seq<int>>): seq<TagId>
  {
    Provided(result, ListTag)
  }

  function ByUserTags(result: Option<seq<int>>, userId: int): seq<TagId>
  {
    Provided(result, UserScope(userId))
  }

  /** The by-doctor endpoint's reply as its tags read it: only the
      `prescriptions` field, which may be missing; an empty array still
      counts as present. Other reply shapes read as a missing field. */
  datatype DoctorResponse = DoctorResponse(prescriptions: Option<seq<int>>)

  function ByDoctorTags(result: Option<DoctorResponse>): (r: seq<TagId>)
    ensures result.None? || result.value.prescriptions.None? ==> r == [ListTag]
    ensures result.Some? && result.value.prescriptions.Some? ==> r == Provided(result.value.prescriptions, ListTag)
  {
    if result.Some? && result.value.prescriptions.Some? then Provided(result.value.prescriptions, ListTag)
    else [ListTag]
  }

  function ByDoctorAndUserTags(result: Option<seq<int>>, docId: int, userId: int): seq<TagId>
  {
    Provided(result, DoctorUserScope(docId, userId))
  }

  /** Creating a prescription invalidates the list tag only. */
  const CreateInvalidates: seq<TagId> := [ListTag]

  /** Updating prescription `id` invalidates that prescription's tag only. */
  function UpdateInvalidates(id: int): seq<TagId>
  {
    [ItemTag(id)]
  }

  /** A cached query is fetched again when it provides an invalidated tag. */
  predicate Refetched(provided: seq<TagId>, invalidated: seq<TagId>)
  {
    exists i, j :: 0 <= i < |provided| && 0 <= j < |invalidated| && provided[i] == invalidated[j]
  }

  /** A prescription's id appears among a query's tags exactly when the
      query returned that prescription. */
  lemma ProvidedItems(result: Option<seq<int>>, scope: TagId, id: int)
    requires scope.ScopeTag?
    ensures ItemTag(id) in Provided(result, scope) <==> result.Some? && id in result.value
  {
    var r := Provided(result, scope);
    if result.Some? && id in result.value {
      var k :| 0 <= k < |result.value| && result.value[k] == id;
      assert r[k] == ItemTag(id);
    }
  }

  /** Updating a prescription refreshes exactly the cached queries whose
      result contains it, whatever the endpoint. */
  lemma UpdateRefetchesHolders(result: Option<seq<int>>, scope: TagId, id: int)
    requires scope.ScopeTag?
    ensures Refetched(Provided(result, scope), UpdateInvalidates(id)) <==> result.Some? && id in result.value
  {
    var r := Provided(result, scope);
    ProvidedItems(result, scope, id);
    if Refetched(r, UpdateInvalidates(id)) {
      var i, j :| 0 <= i < |r| && 0 <= j < 1 && r[i] == UpdateInvalidates(id)[j];
      assert r[i] in r;
    }
    if result.Some? && id in result.value {
      var k :| 0 <= k < |r| && r[k] == ItemTag(id);
      assert r[k] == UpdateInvalidates(id)[0];
    }
  }

  /** Through each of the four query endpoints, updating a prescription
      refreshes the cached result exactly when it holds that prescription;
      for the by-doctor endpoint, when its `prescriptions` field holds it.
      A by-doctor reply that is a bare array or uses a `data` field provides
      the list tag alone, whatever it lists. */
  lemma UpdateRefetchesEveryEndpoint(result: Option<seq<int>>, doctorResult: Option<DoctorResponse>,
                                     docId: int, userId: int, id: int)
    ensures Refetched(AllPrescriptionsTags(result), UpdateInvalidates(id)) <==> result.Some? && id in result.value
    ensures Refetched(ByUserTags(result, userId), UpdateInvalidates(id)) <==> result.Some? && id in result.value
    ensures Refetched(ByDoctorAndUserTags(result, docId, userId), UpdateInvalidates(id)) <==> result.Some? && id in result.value
    ensures Refetched(ByDoctorTags(doctorResult), UpdateInvalidates(id)) <==>
      doctorResult.Some? && doctorResult.value.prescriptions.Some? && id in doctorResult.value.prescriptions.value
  {
    UpdateRefetchesHolders(result, ListTag, id);
    UpdateRefetchesHolders(result, UserScope(userId), id);
    UpdateRefetchesHolders(result, DoctorUserScope(docId, userId), id);
    if doctorResult.Some? && doctorResult.value.prescriptions.Some? {
      UpdateRefetchesHolders(doctorResult.value.prescriptions, ListTag, id);
    } else {
      UpdateRefetchesHolders(None, ListTag, id);
    }
  }

  /** Creating a prescription refreshes the all-prescriptions and by-doctor
      queries, whatever they hold. */
  lemma CreateRefetchesLists(result: Option<seq<int>>, doctorResult: Option<DoctorResponse>)
    ensures Refetched(AllPrescriptionsTags(result), CreateInvalidates)
    ensures Refetched(ByDoctorTags(doctorResult), CreateInvalidates)
  {
    var all := AllPrescriptionsTags(result);
    assert all[|all| - 1] == CreateInvalidates[0];
    var byDoctor := ByDoctorTags(doctorResult);
    assert byDoctor[|byDoctor| - 1] == CreateInvalidates[0];
  }

  /** A query scoped by a tag other than the list tag never provides it. */
  lemma ScopedNeverListed(result: Option<seq<int>>, scope: TagId)
    requires scope.ScopeTag? && scope != ListTag
    ensures !Refetched(Provided(result, scope), CreateInvalidates)
  {
    var r := Provided(result, scope);
    forall i | 0 <= i < |r|
      ensures r[i] != ListTag
    {
      if result.Some? && i < |result.value| {
        assert r[i] == r[..|result.value|][i];
      }
    }
  }

  /** Creating a prescription leaves the per-user and per-doctor-and-user
      queries cached: a patient's list already cached in the same client is
      not refreshed by a new prescription for that patient. */
  lemma CreateSkipsScopedQueries(result: Option<seq<int>>, docId: int, userId: int)
    ensures !Refetched(ByUserTags(result, userId), CreateInvalidates)
    ensures !Refetched(ByDoctorAndUserTags(result, docId, userId), CreateInvalidates)
  {
    ScopesDistinct(userId, userId, docId);
    ScopedNeverListed(result, UserScope(userId));
    ScopedNeverListed(result, DoctorUserScope(docId, userId));
  }
}
