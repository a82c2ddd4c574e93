/** Template fields and templates. */
module Fields {
  import opened Options

  /** The length a template gives to a field whose records carry their own. */
  const VARIABLE_LENGTH: nat := 0xffff

  datatype TemplateField = TemplateField(informationElement: nat, length: nat, enterprise: Option<nat>)

  datatype Template = Template(id: nat, fields: seq<TemplateField>, fixedLength: Option<nat>)

  ghost predicate HasVariable(fields: seq<TemplateField>)
  {
    exists i :: 0 <= i < |fields| && fields[i].length == VARIABLE_LENGTH
  }

  function TotalLength(fields: seq<TemplateField>): nat
  {
    if fields == [] then 0 else TotalLength(fields[..|fields| - 1]) + fields[|fields| - 1].length
  }

  /** None exactly when some field must be measured in the record; otherwise the sum of the widths. */
  function FixedLength(fields: seq<TemplateField>): (total: Option<nat>)
    ensures total.None? <==> HasVariable(fields)
    ensures total.Some? ==> total.value == TotalLength(fields)
  {
    if fields == [] then Some(0) else
    var init := fields[..|fields| - 1];
    var last := fields[|fields| - 1];
    assert HasVariable(fields) ==> last.length == VARIABLE_LENGTH || HasVariable(init) by {
      if HasVariable(fields) && last.length != VARIABLE_LENGTH {
        var i :| 0 <= i < |fields| && fields[i].length == VARIABLE_LENGTH;
        assert init[i].length == VARIABLE_LENGTH;
      }
    }
    assert HasVariable(init) ==> HasVariable(fields) by {
      if HasVariable(init) {
        var i :| 0 <= i < |init| && init[i].length == VARIABLE_LENGTH;
        assert fields[i].length == VARIABLE_LENGTH;
      }
    }
    match FixedLength(init)
    case None => None
    case Some(n) => if last.length == VARIABLE_LENGTH then None else Some(n + last.length)
  }

  method TemplateFixedLength(fields: seq<TemplateField>) returns (total: Option<nat>)
    ensures total == FixedLength(fields)
    ensures total.None? <==> HasVariable(fields)
  {
    var sum := 0;
    for i := 0 to |fields|
      invariant FixedLength(fields[..i]) == Some(sum)
    {
      assert fields[..i + 1][..i] == fields[..i];
      if fields[i].length == VARIABLE_LENGTH {
        assert HasVariable(fields);
        return None;
      }
      sum := sum + fields[i].length;
    }
    assert fields[..|fields|] == fields;
    return Some(sum);
  }
}
