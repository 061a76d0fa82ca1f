/** `update_people` (`salaryman_simulator/src/main.rs`): the `Name` of the
    first person called "Elaina Proctor" becomes "Elaina Hume", in place; the
    loop stops there. The names are given in the query's iteration order. */
module People {
  import opened Common

  const OLD_NAME: string := "Elaina Proctor"
  const NEW_NAME: string := "Elaina Hume"

  /** The position of the first occurrence of `name`, if any. */
  function FirstIndexOf(names: seq<string>, name: string): (r: Option<nat>)
    ensures r.Some? ==> r.value < |names| && names[r.value] == name
    ensures r.Some? ==> forall j :: 0 <= j < r.value ==> names[j] != name
    ensures r.None? <==> name !in names
  {
    if names == [] then None
    else if names[0] == name then Some(0)
    else match FirstIndexOf(names[1..], name)
      case None => (assert names == [names[0]] + names[1..]; None)
      case Some(k) => Some(k + 1)
  }

  /** The names after `update_people`. */
  function Renamed(names: seq<string>): (r: seq<string>)
    ensures |r| == |names|
    ensures OLD_NAME !in names ==> r == names
    ensures forall j :: 0 <= j < |names| && r[j] != names[j] ==>
              names[j] == OLD_NAME && r[j] == NEW_NAME &&
              forall i :: 0 <= i < j ==> names[i] != OLD_NAME
    ensures forall j ::
              (0 <= j < |names| && names[j] == OLD_NAME && forall i :: 0 <= i < j ==> names[i] != OLD_NAME)
              ==> r[j] == NEW_NAME
  {
    match FirstIndexOf(names, OLD_NAME)
    case None => names
    case Some(k) => names[k := NEW_NAME]
  }

  /** `update_people`. */
  method UpdatePeople(names: array<string>)
    modifies names
    ensures names[..] == Renamed(old(names[..]))
  {
    var i := 0;
    while i < names.Length
      invariant 0 <= i <= names.Length
      invariant names[..] == old(names[..])
      invariant forall j :: 0 <= j < i ==> names[j] != OLD_NAME
    {
      if names[i] == OLD_NAME {
        names[i] := NEW_NAME;
        FirstIsUnique(old(names[..]), OLD_NAME, i);
        return;
      }
      i := i + 1;
    }
    assert OLD_NAME !in names[..];
  }

  lemma FirstIsUnique(names: seq<string>, name: string, k: nat)
    requires k < |names| && names[k] == name
    requires forall j :: 0 <= j < k ==> names[j] != name
    ensures FirstIndexOf(names, name) == Some(k)
  {
  }

  /** At most one name changes. */
  lemma AtMostOneRenamed(names: seq<string>, i: nat, j: nat)
    requires i < |names| && j < |names|
    requires Renamed(names)[i] != names[i] && Renamed(names)[j] != names[j]
    ensures i == j
  {
  }

  /** One "Elaina Proctor" fewer, one "Elaina Hume" more, when there was one. */
  lemma RenamedCounts(names: seq<string>)
    requires OLD_NAME in names
    ensures multiset(Renamed(names))[OLD_NAME] == multiset(names)[OLD_NAME] - 1
    ensures multiset(Renamed(names))[NEW_NAME] == multiset(names)[NEW_NAME] + 1
  {
    var k := FirstIndexOf(names, OLD_NAME).value;
    var before, after := names[..k], names[k + 1..];
    assert names == before + [OLD_NAME] + after;
    assert Renamed(names) == before + [NEW_NAME] + after;
    assert multiset(names) == multiset(before) + multiset{OLD_NAME} + multiset(after);
    assert multiset(Renamed(names)) == multiset(before) + multiset{NEW_NAME} + multiset(after);
  }
}
