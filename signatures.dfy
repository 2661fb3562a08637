/**
 * A signature as the predictors use it: an ordered list of named fields,
 * each an input or an output with a prompt prefix and a description, plus
 * optional instructions. Only the operations the predictors call are
 * modelled: the input and output views and the role-aware `append` and
 * `prepend` (a new input joins the inputs, a new output the outputs, and
 * the inputs stay before the outputs).
 */
module Signatures {
  import opened Wrappers
  import opened Dicts

  datatype Role = Input | Output

  /** How a field's value is rendered into the prompt. */
  datatype Format = Default | AsStr | PassagesToText

  datatype FieldInfo = FieldInfo(role: Role, prefix: string, desc: string, format: Format)

  type Fields = Dict<FieldInfo>

  datatype Signature = Signature(fields: Fields, instructions: Option<string>)

  /** The items of `items` with role `role`, in order. */
  function OfRole(items: seq<(string, FieldInfo)>, role: Role): (r: seq<(string, FieldInfo)>)
    ensures |r| <= |items|
    ensures forall i :: 0 <= i < |r| ==> r[i].1.role == role && r[i] in items
    ensures forall i :: 0 <= i < |items| && items[i].1.role == role ==> items[i] in r
  {
    if items == [] then []
    else
      var init := OfRole(items[..|items| - 1], role);
      var last := items[|items| - 1];
      assert forall x :: x in items[..|items| - 1] ==> x in items;
      if last.1.role == role then init + [last] else init
  }

  /** Filtering distributes over concatenation. */
  lemma {:induction false} OfRoleAppend(a: seq<(string, FieldInfo)>, b: seq<(string, FieldInfo)>, role: Role)
    ensures OfRole(a + b, role) == OfRole(a, role) + OfRole(b, role)
    decreases |b|
  {
    if b != [] {
      assert (a + b)[..|a + b| - 1] == a + b[..|b| - 1];
      OfRoleAppend(a, b[..|b| - 1], role);
    } else {
      assert a + b == a;
    }
  }

  /** A single field is kept exactly when it has the role. */
  lemma OfRoleSingle(x: (string, FieldInfo), role: Role)
    ensures OfRole([x], role) == if x.1.role == role then [x] else []
  {
    assert [x][..0] == [];
  }

  /** Filtering three fields keeps each of them on its own. */
  lemma OfRoleThree(a: (string, FieldInfo), b: (string, FieldInfo), c: (string, FieldInfo), role: Role)
    ensures OfRole([a, b, c], role) == OfRole([a], role) + OfRole([b], role) + OfRole([c], role)
  {
    assert [a, b, c] == [a] + [b] + [c];
    OfRoleAppend([a], [b], role);
    OfRoleAppend([a] + [b], [c], role);
  }

  /** Two lists without a field of the role make one. */
  lemma OfRoleAppendNone(a: seq<(string, FieldInfo)>, b: seq<(string, FieldInfo)>, role: Role)
    requires OfRole(a, role) == [] && OfRole(b, role) == []
    ensures OfRole(a + b, role) == []
  {
    OfRoleAppend(a, b, role);
  }

  /** `signature.input_fields`, as items. */
  function InputItems(sig: Signature): seq<(string, FieldInfo)>
    requires Valid(sig.fields)
  {
    OfRole(Items(sig.fields), Input)
  }

  /** `signature.output_fields`, as items. */
  function OutputItems(sig: Signature): seq<(string, FieldInfo)>
    requires Valid(sig.fields)
  {
    OfRole(Items(sig.fields), Output)
  }

  /** `signature.output_fields.keys()`. */
  function OutputNames(sig: Signature): seq<string>
    requires Valid(sig.fields)
  {
    Names(OutputItems(sig))
  }

  /** `signature.input_fields.keys()`. */
  function InputNames(sig: Signature): seq<string>
    requires Valid(sig.fields)
  {
    Names(InputItems(sig))
  }

  /** `signature.append(name, field)`: the field goes last among the fields of its role. */
  function Append(sig: Signature, name: string, info: FieldInfo): (r: Signature)
    requires Valid(sig.fields)
    ensures Valid(r.fields)
  {
    var ins := InputItems(sig);
    var outs := OutputItems(sig);
    if info.role == Input then Signature(FromItems(ins + [(name, info)] + outs), sig.instructions)
    else Signature(FromItems(ins + outs + [(name, info)]), sig.instructions)
  }

  /** `signature.prepend(name, field)`: the field goes first among the fields of its role. */
  function Prepend(sig: Signature, name: string, info: FieldInfo): (r: Signature)
    requires Valid(sig.fields)
    ensures Valid(r.fields)
  {
    var ins := InputItems(sig);
    var outs := OutputItems(sig);
    if info.role == Input then Signature(FromItems([(name, info)] + ins + outs), sig.instructions)
    else Signature(FromItems(ins + [(name, info)] + outs), sig.instructions)
  }
  /** A new input field goes after the existing inputs; the outputs stay. */
  lemma AppendInputLayout(sig: Signature, name: string, info: FieldInfo)
    requires Valid(sig.fields) && info.role == Input && name !in sig.fields.vals
    ensures InputItems(Append(sig, name, info)) == InputItems(sig) + [(name, info)]
    ensures OutputItems(Append(sig, name, info)) == OutputItems(sig)
    ensures forall k :: k in Append(sig, name, info).fields.vals <==> k in sig.fields.vals || k == name
  {
    var ins, outs := InputItems(sig), OutputItems(sig);
    var x := (name, info);
    var all := ins + [x] + outs;
    assert Append(sig, name, info).fields == FromItems(all);
    SplitItems(sig, x);
    SplitKeys(sig, x);
    SplitRoles(ins, x, outs);
    OfRoleSingle(x, Input);
    OfRoleSingle(x, Output);
  }

  /** Appending an input adds its name to the keys. */
  lemma AppendKeys(sig: Signature, name: string, info: FieldInfo)
    requires Valid(sig.fields) && info.role == Input
    ensures forall k :: k in Append(sig, name, info).fields.vals <==> k in sig.fields.vals || k == name
  {
    assert Append(sig, name, info).fields == FromItems(InputItems(sig) + [(name, info)] + OutputItems(sig));
    SplitKeys(sig, (name, info));
  }

  /** Appending an input adds its name to the keys, one key at a time. */
  lemma AppendKeyIn(sig: Signature, name: string, info: FieldInfo, k: string)
    requires Valid(sig.fields) && info.role == Input
    ensures k in Append(sig, name, info).fields.vals <==> k in sig.fields.vals || k == name
  {
    AppendKeys(sig, name, info);
  }

  /** A new output field goes before the existing outputs; the inputs stay. */
  lemma PrependOutputLayout(sig: Signature, name: string, info: FieldInfo)
    requires Valid(sig.fields) && info.role == Output && name !in sig.fields.vals
    ensures InputItems(Prepend(sig, name, info)) == InputItems(sig)
    ensures OutputItems(Prepend(sig, name, info)) == [(name, info)] + OutputItems(sig)
    ensures forall k :: k in Prepend(sig, name, info).fields.vals <==> k in sig.fields.vals || k == name
  {
    var ins, outs := InputItems(sig), OutputItems(sig);
    var x := (name, info);
    var all := ins + [x] + outs;
    assert Prepend(sig, name, info).fields == FromItems(all);
    SplitItems(sig, x);
    SplitKeys(sig, x);
    SplitRoles(ins, x, outs);
    OfRoleSingle(x, Input);
    OfRoleSingle(x, Output);
  }

  /** The inputs, a new field and the outputs, put back into a dict, keep that order. */
  lemma SplitItems(sig: Signature, x: (string, FieldInfo))
    requires Valid(sig.fields) && x.0 !in sig.fields.vals
    ensures Items(FromItems(InputItems(sig) + [x] + OutputItems(sig))) == InputItems(sig) + [x] + OutputItems(sig)
  {
    SplitDistinct(sig, x);
    FromItemsItems(InputItems(sig) + [x] + OutputItems(sig));
  }

  /** The keys of that dict are the old keys and the new name. */
  lemma SplitKeys(sig: Signature, x: (string, FieldInfo))
    requires Valid(sig.fields)
    ensures forall k :: k in FromItems(InputItems(sig) + [x] + OutputItems(sig)).vals <==> k in sig.fields.vals || k == x.0
  {
    var ins, outs := InputItems(sig), OutputItems(sig);
    var all := ins + [x] + outs;
    NamesConcat(ins + [x], outs);
    NamesConcat(ins, [x]);
    var n := Names(ins) + [x.0] + Names(outs);
    assert Names(all) == n;
    RolesCover(sig);
    RoleNamesAreKeys(sig, Input);
    RoleNamesAreKeys(sig, Output);
    forall k ensures k in FromItems(all).vals <==> k in sig.fields.vals || k == x.0 {
      assert k in FromItems(all).vals <==> k in n;
      assert k in n <==> k in Names(ins) || k == x.0 || k in Names(outs);
    }
  }

  /** Inputs, one field and outputs, filtered by role: the inputs and the
      outputs each stay whole, and the field joins the side of its role. */
  lemma SplitRoles(a: seq<(string, FieldInfo)>, x: (string, FieldInfo), b: seq<(string, FieldInfo)>)
    requires forall i :: 0 <= i < |a| ==> a[i].1.role == Input
    requires forall i :: 0 <= i < |b| ==> b[i].1.role == Output
    ensures OfRole(a + [x] + b, Input) == a + OfRole([x], Input)
    ensures OfRole(a + [x] + b, Output) == OfRole([x], Output) + b
  {
    OfRoleAppend(a + [x], b, Input);
    OfRoleAppend(a + [x], b, Output);
    OfRoleAppend(a, [x], Input);
    OfRoleAppend(a, [x], Output);
    OfRoleAll(a, Input);
    OfRoleNone(a, Output);
    OfRoleAll(b, Output);
    OfRoleNone(b, Input);
    assert a + OfRole([x], Input) + [] == a + OfRole([x], Input);
    assert [] + OfRole([x], Output) + b == OfRole([x], Output) + b;
  }

  /** Every field a role keeps is a field of the signature, under its own name. */
  lemma RoleItemsAreFields(sig: Signature, role: Role)
    requires Valid(sig.fields)
    ensures var r := OfRole(Items(sig.fields), role);
      forall i :: 0 <= i < |r| ==> r[i].0 in sig.fields.vals && sig.fields.vals[r[i].0] == r[i].1 && r[i].1.role == role
  {
    var items := Items(sig.fields);
    var r := OfRole(items, role);
    forall i | 0 <= i < |r| ensures r[i].0 in sig.fields.vals && sig.fields.vals[r[i].0] == r[i].1 {
      var p :| 0 <= p < |items| && items[p] == r[i];
    }
  }

  /** The names a role keeps are keys of the signature. */
  lemma RoleNamesAreKeys(sig: Signature, role: Role)
    requires Valid(sig.fields)
    ensures forall k :: k in Names(OfRole(Items(sig.fields), role)) ==> k in sig.fields.vals
  {
    RoleItemsAreFields(sig, role);
  }

  /** Every key of a signature is an input name or an output name. */
  lemma RolesCover(sig: Signature)
    requires Valid(sig.fields)
    ensures forall k :: k in sig.fields.vals ==> k in Names(InputItems(sig)) || k in Names(OutputItems(sig))
  {
    var items := Items(sig.fields);
    forall k | k in sig.fields.vals ensures k in Names(InputItems(sig)) || k in Names(OutputItems(sig)) {
      var p :| 0 <= p < |items| && sig.fields.keys[p] == k;
      RoleNameIn(items, p, items[p].1.role);
    }
  }

  /** The name of a field with the given role is among the names the role keeps. */
  lemma RoleNameIn(items: seq<(string, FieldInfo)>, p: nat, role: Role)
    requires p < |items| && items[p].1.role == role
    ensures items[p].0 in Names(OfRole(items, role))
  {
    var r := OfRole(items, role);
    var q :| 0 <= q < |r| && r[q] == items[p];
    assert Names(r)[q] == items[p].0;
  }

  /** No input shares its name with an output. */
  lemma RolesDisjoint(sig: Signature)
    requires Valid(sig.fields)
    ensures forall i, j :: 0 <= i < |InputItems(sig)| && 0 <= j < |OutputItems(sig)| ==> InputItems(sig)[i].0 != OutputItems(sig)[j].0
  {
    RoleItemsAreFields(sig, Input);
    RoleItemsAreFields(sig, Output);
  }

  /** The inputs, a new field and the outputs have pairwise different names. */
  lemma SplitDistinct(sig: Signature, x: (string, FieldInfo))
    requires Valid(sig.fields) && x.0 !in sig.fields.vals
    ensures Distinct(Names(InputItems(sig) + [x] + OutputItems(sig)))
  {
    var ins, outs := InputItems(sig), OutputItems(sig);
    OfRoleDistinct(Items(sig.fields), Input);
    OfRoleDistinct(Items(sig.fields), Output);
    RoleItemsAreFields(sig, Input);
    RoleItemsAreFields(sig, Output);
    DisjointNamesDistinct(ins, [x]);
    RolesDisjoint(sig);
    DisjointNamesDistinct(ins + [x], outs);
  }

  /** Filtering keeps names pairwise different. */
  lemma {:induction false} OfRoleDistinct(items: seq<(string, FieldInfo)>, role: Role)
    requires Distinct(Names(items))
    ensures Distinct(Names(OfRole(items, role)))
    decreases |items|
  {
    if items != [] {
      var init := items[..|items| - 1];
      var last := items[|items| - 1];
      assert Names(init) == Names(items)[..|items| - 1];
      OfRoleDistinct(init, role);
      var r := OfRole(init, role);
      forall i | 0 <= i < |r| ensures r[i].0 != last.0 {
        var j :| 0 <= j < |init| && init[j] == r[i];
        assert Names(items)[j] == r[i].0 && Names(items)[|items| - 1] == last.0;
      }
    }
  }

  /** A list whose fields all have the role keeps every field. */
  lemma {:induction false} OfRoleAll(items: seq<(string, FieldInfo)>, role: Role)
    requires forall i :: 0 <= i < |items| ==> items[i].1.role == role
    ensures OfRole(items, role) == items
    decreases |items|
  {
    if items != [] {
      OfRoleAll(items[..|items| - 1], role);
      assert items == items[..|items| - 1] + [items[|items| - 1]];
    }
  }

  /** A list with no field of the role keeps none. */
  lemma OfRoleNone(items: seq<(string, FieldInfo)>, role: Role)
    requires forall i :: 0 <= i < |items| ==> items[i].1.role != role
    ensures OfRole(items, role) == []
  {
  }
}
