/**
 * The shape shared by the screens' form checks: an ordered list of checks, of which only
 * the first failing one is reported (a `when` chain, or a run of early `return`s).
 */
module Validation {
  import opened Wrappers

  datatype Check = Check(fails: bool, message: string)

  /** Position of the first failing check. */
  function FirstFailing(cs: seq<Check>): (r: Option<nat>)
    ensures r.Some? ==> r.value < |cs| && cs[r.value].fails
    ensures r.Some? ==> forall j :: 0 <= j < r.value ==> !cs[j].fails
    ensures r.None? <==> forall j :: 0 <= j < |cs| ==> !cs[j].fails
  {
    if cs == [] then None
    else if cs[0].fails then Some(0)
    else match FirstFailing(cs[1..])
      case None => None
      case Some(i) => Some(i + 1)
  }

  /** The message shown for a list of checks; nothing when every check passes. */
  function FirstFailure(cs: seq<Check>): (r: Option<string>)
    ensures r.None? <==> forall j :: 0 <= j < |cs| ==> !cs[j].fails
    ensures r.Some? ==> exists i ::
      && 0 <= i < |cs| && cs[i].fails && r.value == cs[i].message
      && forall j :: 0 <= j < i ==> !cs[j].fails
  {
    match FirstFailing(cs)
    case None => None
    case Some(i) => Some(cs[i].message)
  }

  /** If check `i` fails and every check before it passes, its message is the one shown. */
  lemma FirstFailureAt(cs: seq<Check>, i: nat)
    requires i < |cs| && cs[i].fails
    requires forall j :: 0 <= j < i ==> !cs[j].fails
    ensures FirstFailure(cs) == Some(cs[i].message)
  {
    var k := FirstFailing(cs).value;
    assert !(k < i) && !(i < k);
  }
}
