/** The request-side rules of oc_core_res.c: what a POST to /oc/con changes
    (oc_core_con_handler_post) and whether a resource passes the "rt" query
    filter (oc_filter_resource_by_rt).  Payloads and queries are given as
    already-decoded sequences. */
module CoreRequests {
  import opened Common

  /** The value of a payload entry: a text string, or anything else. */
  datatype RepValue = RepString(text: string) | RepOther

  /** One entry of the request payload (oc_rep_t): its key and value. */
  datatype Rep = Rep(name: string, value: RepValue)

  /** The two answers the handler can send. */
  datatype Status = Changed | BadRequest

  /** A value the handler accepts: a non-empty string. */
  predicate NonEmptyText(v: RepValue) {
    v.RepString? && |v.text| > 0
  }

  /** What the POST leaves behind: the answer, the device name and the
      location tag of the device resource. */
  datatype ConOutcome = ConOutcome(status: Status, name: Option<string>, tagLocn: nat)

  /** The walk of oc_core_con_handler_post over the remaining entries, with
      the current name and tag and whether something changed so far.
      `locnOf` is oc_str_to_enum_locn: the location a string names, if any.
      "n" with an acceptable value renames the device and ends the walk; a
      bad "n" or "locn", or a "locn" while the tag is 0, answers BAD_REQUEST
      at once; a known "locn" retags; other keys are skipped.  A BAD_REQUEST
      answer never renames the device, and an untagged device stays
      untagged. */
  function ConPost(reps: seq<Rep>, name: Option<string>, tagLocn: nat, locnOf: string -> Option<nat>, changed: bool): (r: ConOutcome)
    ensures r.status == BadRequest ==> r.name == name
    ensures tagLocn == 0 ==> r.tagLocn == 0
    decreases |reps|
  {
    if reps == [] then ConOutcome(if changed then Changed else BadRequest, name, tagLocn)
    else
      var rep := reps[0];
      if rep.name == "n" then
        if !NonEmptyText(rep.value) then ConOutcome(BadRequest, name, tagLocn)
        else ConOutcome(Changed, Some(rep.value.text), tagLocn)
      else if rep.name == "locn" then
        if !NonEmptyText(rep.value) || tagLocn == 0 then ConOutcome(BadRequest, name, tagLocn)
        else
          var l := locnOf(rep.value.text);
          if l.Some? then ConPost(reps[1..], name, l.value, locnOf, true)
          else ConPost(reps[1..], name, tagLocn, locnOf, changed)
      else ConPost(reps[1..], name, tagLocn, locnOf, changed)
  }

  /** The position of the first entry with key `key` (|reps| when none). */
  function FirstKey(reps: seq<Rep>, key: string): (k: nat)
    ensures k <= |reps|
    ensures k < |reps| ==> reps[k].name == key
    ensures forall j :: 0 <= j < k ==> reps[j].name != key
  {
    if reps == [] then 0
    else if reps[0].name == key then 0
    else 1 + FirstKey(reps[1..], key)
  }

  /** Without "n" or "locn" entries nothing changes, and the answer is
      CHANGED only if something had changed before. */
  lemma {:induction false} ConPostNoKeys(reps: seq<Rep>, name: Option<string>, tagLocn: nat, locnOf: string -> Option<nat>, changed: bool)
    requires forall i :: 0 <= i < |reps| ==> reps[i].name != "n" && reps[i].name != "locn"
    ensures ConPost(reps, name, tagLocn, locnOf, changed) == ConOutcome(if changed then Changed else BadRequest, name, tagLocn)
    decreases |reps|
  {
    if reps != [] {
      ConPostNoKeys(reps[1..], name, tagLocn, locnOf, changed);
    }
  }

  /** The name changes only to the acceptable value of the first "n" entry,
      and only with a CHANGED answer. */
  lemma {:induction false} ConPostName(reps: seq<Rep>, name: Option<string>, tagLocn: nat, locnOf: string -> Option<nat>, changed: bool)
    ensures var r := ConPost(reps, name, tagLocn, locnOf, changed);
      var k := FirstKey(reps, "n");
      r.name == name || (k < |reps| && NonEmptyText(reps[k].value) && r.name == Some(reps[k].value.text) && r.status == Changed)
    decreases |reps|
  {
    if reps != [] && reps[0].name != "n" {
      var l := if reps[0].name == "locn" && NonEmptyText(reps[0].value) then locnOf(reps[0].value.text) else None;
      ConPostName(reps[1..], name, if l.Some? then l.value else tagLocn, locnOf, changed || l.Some?);
      ConPostName(reps[1..], name, tagLocn, locnOf, changed);
    }
  }

  /** An acceptable first "n" renames the device with a CHANGED answer,
      provided every "locn" before it is accepted: a non-empty value, a
      tagged device, and no retag to 0. */
  lemma {:induction false} ConPostRenames(reps: seq<Rep>, name: Option<string>, tagLocn: nat, locnOf: string -> Option<nat>, changed: bool)
    requires FirstKey(reps, "n") < |reps| && NonEmptyText(reps[FirstKey(reps, "n")].value)
    requires forall j :: 0 <= j < FirstKey(reps, "n") && reps[j].name == "locn" ==>
      NonEmptyText(reps[j].value) && tagLocn != 0 && locnOf(reps[j].value.text) != Some(0)
    ensures var r := ConPost(reps, name, tagLocn, locnOf, changed);
      r.name == Some(reps[FirstKey(reps, "n")].value.text) && r.status == Changed
    decreases |reps|
  {
    if reps[0].name != "n" {
      var l := if reps[0].name == "locn" then locnOf(reps[0].value.text) else None;
      ConPostRenames(reps[1..], name, if l.Some? then l.value else tagLocn, locnOf, changed || l.Some?);
    }
  }

  /** The first "n" or "locn" entry, when its value is not a non-empty
      string or it is a "locn" while the tag is 0, answers BAD_REQUEST and
      changes nothing, whatever follows. */
  lemma {:induction false} ConPostRejects(reps: seq<Rep>, k: nat, name: Option<string>, tagLocn: nat, locnOf: string -> Option<nat>, changed: bool)
    requires k < |reps| && (reps[k].name == "n" || reps[k].name == "locn")
    requires forall j :: 0 <= j < k ==> reps[j].name != "n" && reps[j].name != "locn"
    requires !NonEmptyText(reps[k].value) || (reps[k].name == "locn" && tagLocn == 0)
    ensures ConPost(reps, name, tagLocn, locnOf, changed) == ConOutcome(BadRequest, name, tagLocn)
    decreases k
  {
    if k > 0 {
      ConPostRejects(reps[1..], k - 1, name, tagLocn, locnOf, changed);
    }
  }

  /** A "locn" that retags, followed by a bad entry: the answer is
      BAD_REQUEST but the new tag stays. */
  lemma ConPostBadAfterRetag(name: Option<string>, tagLocn: nat, locnOf: string -> Option<nat>, text: string, l: nat)
    requires tagLocn != 0 && |text| > 0 && locnOf(text) == Some(l) && l != 0
    ensures ConPost([Rep("locn", RepString(text)), Rep("locn", RepOther)], name, tagLocn, locnOf, false)
         == ConOutcome(BadRequest, name, l)
  {
    var reps := [Rep("locn", RepString(text)), Rep("locn", RepOther)];
    assert reps[1..] == [Rep("locn", RepOther)];
  }

  /** oc_filter_resource_by_rt's answer: true when the query has no
      non-empty "rt" value, or when one of them is a type of the resource. */
  predicate RtMatches(types: seq<string>, query: seq<string>) {
    (forall v :: v in query ==> v == "") || (exists v :: v in query && v != "" && v in types)
  }

  /** oc_filter_resource_by_rt, with the "rt" values of the query in
      order ("" for a value of length 0). */
  method FilterResourceByRt(types: seq<string>, query: seq<string>) returns (matched: bool)
    ensures matched == RtMatches(types, query)
  {
    matched := true;
    var q := 0;
    while q < |query|
      invariant 0 <= q <= |query|
      invariant matched <==> forall j :: 0 <= j < q ==> query[j] == ""
      invariant forall j :: 0 <= j < q && query[j] != "" ==> query[j] !in types
    {
      var rt := query[q];
      if |rt| > 0 {
        matched := false;
        for i := 0 to |types|
          invariant forall j :: 0 <= j < i ==> types[j] != rt
        {
          if |types[i]| == |rt| && types[i] == rt {
            assert rt in query && rt in types;
            return true;
          }
        }
      }
      q := q + 1;
    }
    forall v | v in query && v != ""
      ensures v !in types
    {
      var j :| 0 <= j < |query| && query[j] == v;
    }
    if matched {
      forall v | v in query
        ensures v == ""
      {
        var j :| 0 <= j < |query| && query[j] == v;
      }
    } else {
      var j :| 0 <= j < |query| && query[j] != "";
      assert query[j] in query;
    }
  }

  /** No "rt" query lets every resource through; a query naming one of
      the resource's types lets it through. */
  lemma RtMatchesCases(types: seq<string>, query: seq<string>, t: string)
    ensures RtMatches(types, [])
    ensures t in types && t != "" && t in query ==> RtMatches(types, query)
    ensures (forall v :: v in query ==> v != "" && v !in types) && query != [] ==> !RtMatches(types, query)
  {
    if query != [] {
      assert query[0] in query;
    }
  }
}
