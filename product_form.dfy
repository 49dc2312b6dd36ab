/**
 * What the add and update screens share: the product form's checks (`validateInputs`,
 * which each screen defines privately with the same checks and messages) and the picked
 * image.
 */
module ProductForm {
  import opened Wrappers
  import opened Models
  import opened Text
  import opened Validation

  const MsgName := "Please enter product name"
  const MsgPrice := "Please enter valid price"
  const MsgDesc := "Please enter product description"

  /** An image chosen with the picker: its display name, when the content provider has one. */
  datatype Picked = Picked(displayName: Option<string>)

  /** The three checks of `validateInputs`, in the order they are made. */
  function ProductChecks(name: string, price: string, desc: string, parse: string -> Option<Price>): seq<Check> {
    [ Check(IsBlank(name), MsgName),
      Check(IsBlank(price) || parse(price).None?, MsgPrice),
      Check(IsBlank(desc), MsgDesc) ]
  }

  /**
   * `validateInputs`: the message of the first failing check, or nothing. `parse` stands
   * for `toDoubleOrNull`.
   */
  function ValidateProductInputs(name: string, price: string, desc: string, parse: string -> Option<Price>)
    : (r: Option<string>)
    ensures r.None? <==> !IsBlank(name) && !IsBlank(price) && parse(price).Some? && !IsBlank(desc)
  {
    var cs := ProductChecks(name, price, desc, parse);
    assert (forall j :: 0 <= j < |cs| ==> !cs[j].fails) <==> !cs[0].fails && !cs[1].fails && !cs[2].fails;
    FirstFailure(cs)
  }

  /** The checks report in order: name, then price, then description. */
  lemma ProductChecksInOrder(name: string, price: string, desc: string, parse: string -> Option<Price>)
    ensures IsBlank(name) ==> ValidateProductInputs(name, price, desc, parse) == Some(MsgName)
    ensures !IsBlank(name) && (IsBlank(price) || parse(price).None?) ==>
      ValidateProductInputs(name, price, desc, parse) == Some(MsgPrice)
    ensures !IsBlank(name) && !IsBlank(price) && parse(price).Some? && IsBlank(desc) ==>
      ValidateProductInputs(name, price, desc, parse) == Some(MsgDesc)
  {
    var cs := ProductChecks(name, price, desc, parse);
    if IsBlank(name) {
      FirstFailureAt(cs, 0);
    } else if IsBlank(price) || parse(price).None? {
      FirstFailureAt(cs, 1);
    } else if IsBlank(desc) {
      FirstFailureAt(cs, 2);
    }
  }

  /**
   * The submit handlers parse the price a second time after the checks passed; since the
   * parse is a function of the text, that second parse always succeeds.
   */
  lemma PriceRecheckNeverFails(name: string, price: string, desc: string, parse: string -> Option<Price>)
    requires ValidateProductInputs(name, price, desc, parse).None?
    ensures parse(price).Some?
  {
  }
}
