/** A JSON document as System.Text.Json's JsonElement exposes it. Numbers are
    integral: a fractional or exponent number fails TryGetInt32/TryGetInt64
    just as an out-of-range integer does, so the mapper treats it like one.
    Member order is kept because lookups depend on it. */
module JsonValues {
  import opened Base

  datatype Json =
    | JNull
    | JBool(b: bool)
    | JString(s: string)
    | JNumber(n: int)
    | JArray(items: seq<Json>)
    | JObject(members: seq<(string, Json)>)

  /** JsonElement.TryGetProperty on the members of an object: names are
      compared ordinally and, when a name repeats, the LAST occurrence is the
      one found. */
  function Member(members: seq<(string, Json)>, name: string): Option<Json>
  {
    if members == [] then None
    else if members[|members| - 1].0 == name then Some(members[|members| - 1].1)
    else Member(members[..|members| - 1], name)
  }

  /** A member is found exactly when the name occurs, and what is found is
      the value of the last occurrence. */
  lemma {:induction false} MemberLastWins(members: seq<(string, Json)>, name: string)
    ensures Member(members, name).None? <==> forall i :: 0 <= i < |members| ==> members[i].0 != name
    ensures Member(members, name).Some? ==>
      exists i :: 0 <= i < |members| && members[i] == (name, Member(members, name).value)
        && forall j :: i < j < |members| ==> members[j].0 != name
  {
    if members != [] && members[|members| - 1].0 != name {
      var init := members[..|members| - 1];
      MemberLastWins(init, name);
      assert forall i :: 0 <= i < |init| ==> init[i] == members[i];
    }
  }

  /** The member found is the one at the position after which its name no
      longer occurs. */
  lemma {:induction false} MemberAt(members: seq<(string, Json)>, name: string, k: nat)
    requires k < |members| && members[k].0 == name
    requires forall j :: k < j < |members| ==> members[j].0 != name
    ensures Member(members, name) == Some(members[k].1)
    decreases |members|
  {
    if k < |members| - 1 {
      var init := members[..|members| - 1];
      assert init[k] == members[k];
      MemberAt(init, name, k);
    }
  }

  /** JsonElement.GetProperty: InvalidOperationException on a value that is
      not an object, KeyNotFoundException when the member is missing. */
  function GetProperty(element: Json, name: string): (r: Result<Json>)
    ensures r.Ok? <==> element.JObject? && Member(element.members, name).Some?
    ensures r.Ok? ==> r.value == Member(element.members, name).value
  {
    if !element.JObject? then Err(InvalidOperation("not an object"))
    else match Member(element.members, name)
      case None => Err(KeyNotFound(name))
      case Some(v) => Ok(v)
  }

  /** JsonElement.GetString: the text of a string, None (null) for a JSON
      null, InvalidOperationException for any other kind. */
  function GetString(element: Json): Result<Option<string>>
  {
    match element
    case JString(s) => Ok(Some(s))
    case JNull => Ok(None)
    case _ => Err(InvalidOperation("not a string"))
  }
}
