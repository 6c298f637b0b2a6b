/** The ordered parameter lists the two search modals build with `URLSearchParams.append` and the
    results page reads back with `get`. Percent-encoding is not modelled: a list is its (name, value)
    pairs in the order they were appended. */
module SearchParams {
  import opened Wrappers

  type Params = seq<(string, string)>

  /** `params.get(name)`: the value of the first pair with that name, `None` (JS `null`) when there is
      none. */
  function Get(params: Params, name: string): (r: Option<string>)
    ensures r.None? <==> forall i :: 0 <= i < |params| ==> params[i].0 != name
    ensures r.Some? ==> (name, r.value) in params
    ensures r.Some? ==> FirstValue(params, name, r.value)
    decreases |params|
  {
    if |params| == 0 then None
    else if params[0].0 == name then Some(params[0].1)
    else
      var r := Get(params[1..], name);
      assert forall i :: 1 <= i < |params| ==> params[i] == params[1..][i - 1];
      r
  }

  /** Some pair carries `name` and `value`, and no pair before it carries `name`. */
  predicate FirstValue(params: Params, name: string, value: string)
  {
    exists i :: 0 <= i < |params| && params[i] == (name, value) && forall j :: 0 <= j < i ==> params[j].0 != name
  }

  /** `params.get(name) || ''`: a missing parameter reads as the empty text. */
  function GetOrEmpty(params: Params, name: string): string
  {
    var v := Get(params, name);
    if v.Some? then v.value else ""
  }

  /** One `if (cond) params.append(name, value)` line of a search handler. */
  datatype Field = Field(name: string, value: string, taken: bool)

  function Names(fields: seq<Field>): (r: seq<string>)
    ensures |r| == |fields|
    ensures forall i :: 0 <= i < |fields| ==> r[i] == fields[i].name
  {
    seq(|fields|, i requires 0 <= i < |fields| => fields[i].name)
  }

  /** Distinct lines have distinct names: a fixed order without repeats gives distinct lines. */
  lemma DistinctOrder(fields: seq<Field>, order: seq<string>)
    requires Names(fields) == order
    requires forall i, j :: 0 <= i < j < |order| ==> order[i] != order[j]
    ensures DistinctNames(fields)
  {
    forall i, j | 0 <= i < j < |fields|
      ensures fields[i].name != fields[j].name
    {
      assert fields[i].name == order[i] && fields[j].name == order[j];
    }
  }

  /** No name is appended by two lines. */
  predicate DistinctNames(fields: seq<Field>)
  {
    forall i, j :: 0 <= i < j < |fields| ==> fields[i].name != fields[j].name
  }

  /** The position of `name` in a fixed order of names; the length of the order when it is absent. */
  function Position(order: seq<string>, name: string): (r: nat)
    ensures r <= |order|
    ensures r < |order| ==> order[r] == name
    ensures forall j :: 0 <= j < r ==> order[j] != name
    decreases |order|
  {
    if |order| == 0 then 0
    else if order[0] == name then 0
    else 1 + Position(order[1..], name)
  }

  /** The list a run of handler lines produces: the pairs of the lines whose condition holds, in the
      order of the lines. */
  function Appended(fields: seq<Field>): (r: Params)
    ensures |r| <= |fields|
    decreases |fields|
  {
    if |fields| == 0 then []
    else (if fields[0].taken then [(fields[0].name, fields[0].value)] else []) + Appended(fields[1..])
  }

  /** Every pair comes from one of the lines. */
  lemma {:induction false} AppendedFromLines(fields: seq<Field>)
    ensures forall i :: 0 <= i < |Appended(fields)| ==> Position(Names(fields), Appended(fields)[i].0) < |fields|
    decreases |fields|
  {
    if |fields| > 0 {
      AppendedFromLines(fields[1..]);
      var rest := Appended(fields[1..]);
      var head: Params := if fields[0].taken then [(fields[0].name, fields[0].value)] else [];
      assert Names(fields) == [fields[0].name] + Names(fields[1..]);
      var r := head + rest;
      assert Appended(fields) == r;
      forall i | 0 <= i < |r|
        ensures Position(Names(fields), r[i].0) < |fields|
      {
        if i >= |head| {
          assert r[i] == rest[i - |head|];
        } else {
          assert r[i].0 == Names(fields)[0];
        }
      }
    }
  }

  /** What one handler line does to the list built so far. */
  function Step(params: Params, f: Field): Params
  {
    if f.taken then params + [(f.name, f.value)] else params
  }

  /** `if (taken) params.append(name, value)`. */
  method AppendIf(params: Params, name: string, value: string, taken: bool) returns (r: Params)
    ensures r == Step(params, Field(name, value, taken))
    ensures taken ==> |r| == |params| + 1 && r[|params|] == (name, value)
    ensures !taken ==> r == params
  {
    r := params;
    if taken {
      r := r + [(name, value)];
    }
  }

  /** Six handler lines in a row append what their lines do one after the other. */
  lemma AppendedSix(f0: Field, f1: Field, f2: Field, f3: Field, f4: Field, f5: Field)
    ensures Appended([f0, f1, f2, f3, f4, f5]) ==
      Step(Step(Step(Step(Step(Step([], f0), f1), f2), f3), f4), f5)
  {
    AppendedSnoc([], f0);
    assert [f0] == [] + [f0];
    AppendedSnoc([f0], f1);
    assert [f0, f1] == [f0] + [f1];
    AppendedSnoc([f0, f1], f2);
    assert [f0, f1, f2] == [f0, f1] + [f2];
    AppendedSnoc([f0, f1, f2], f3);
    assert [f0, f1, f2, f3] == [f0, f1, f2] + [f3];
    AppendedSnoc([f0, f1, f2, f3], f4);
    assert [f0, f1, f2, f3, f4] == [f0, f1, f2, f3] + [f4];
    AppendedSnoc([f0, f1, f2, f3, f4], f5);
    assert [f0, f1, f2, f3, f4, f5] == [f0, f1, f2, f3, f4] + [f5];
  }

  /** The same for eight lines. */
  lemma AppendedEight(f0: Field, f1: Field, f2: Field, f3: Field, f4: Field, f5: Field, f6: Field, f7: Field)
    ensures Appended([f0, f1, f2, f3, f4, f5, f6, f7]) ==
      Step(Step(Step(Step(Step(Step(Step(Step([], f0), f1), f2), f3), f4), f5), f6), f7)
  {
    AppendedSix(f0, f1, f2, f3, f4, f5);
    AppendedSnoc([f0, f1, f2, f3, f4, f5], f6);
    assert [f0, f1, f2, f3, f4, f5, f6] == [f0, f1, f2, f3, f4, f5] + [f6];
    AppendedSnoc([f0, f1, f2, f3, f4, f5, f6], f7);
    assert [f0, f1, f2, f3, f4, f5, f6, f7] == [f0, f1, f2, f3, f4, f5, f6] + [f7];
  }

  /** One more line at the end: the same as running that line on the list built so far. */
  lemma {:induction false} AppendedSnoc(fields: seq<Field>, f: Field)
    ensures Appended(fields + [f]) == Step(Appended(fields), f)
    decreases |fields|
  {
    if |fields| > 0 {
      assert (fields + [f])[1..] == fields[1..] + [f];
      AppendedSnoc(fields[1..], f);
    } else {
      assert Appended([f]) == Appended([f][1..]) + Appended([]) + (if f.taken then [(f.name, f.value)] else []);
    }
  }

  /** Reading back a line's name gives its value when its condition held and nothing when it did not,
      provided no other line uses that name. */
  lemma {:induction false} AppendedGet(fields: seq<Field>, k: nat)
    requires DistinctNames(fields) && k < |fields|
    ensures Get(Appended(fields), fields[k].name) == if fields[k].taken then Some(fields[k].value) else None
    decreases k
  {
    var head: Params := if fields[0].taken then [(fields[0].name, fields[0].value)] else [];
    var rest := Appended(fields[1..]);
    assert Appended(fields) == head + rest;
    if k == 0 {
      if !fields[0].taken {
        AppendedFromLines(fields[1..]);
        forall i | 0 <= i < |rest|
          ensures rest[i].0 != fields[0].name
        {
          var p := Position(Names(fields[1..]), rest[i].0);
          assert fields[1..][p].name == rest[i].0;
        }
      }
    } else {
      assert fields[0].name != fields[k].name;
      assert fields[1..][k - 1] == fields[k];
      AppendedGet(fields[1..], k - 1);
      assert (head + rest)[|head|..] == rest;
    }
  }

  /** A name that no line uses is never read back. */
  lemma AppendedGetAbsent(fields: seq<Field>, name: string)
    requires forall i :: 0 <= i < |fields| ==> fields[i].name != name
    ensures Get(Appended(fields), name) == None
  {
    var r := Appended(fields);
    AppendedFromLines(fields);
    forall i | 0 <= i < |r|
      ensures r[i].0 != name
    {
      var p := Position(Names(fields), r[i].0);
      assert fields[p].name == r[i].0;
    }
  }

  /** Every pair's name comes later in `order` than the names of the pairs before it. */
  predicate Ordered(r: Params, order: seq<string>)
  {
    forall i, j :: 0 <= i < j < |r| ==> Position(order, r[i].0) < Position(order, r[j].0)
  }

  /** The pairs come out in the order of the lines, so each name at most once when the lines' names
      are distinct. */
  lemma {:induction false} AppendedOrdered(fields: seq<Field>)
    requires DistinctNames(fields)
    ensures Ordered(Appended(fields), Names(fields))
    decreases |fields|
  {
    if |fields| > 0 {
      assert DistinctNames(fields[1..]) by {
        assert forall i :: 0 <= i < |fields| - 1 ==> fields[1..][i] == fields[i + 1];
      }
      AppendedOrdered(fields[1..]);
      RestPositions(fields);
      var head: Params := if fields[0].taken then [(fields[0].name, fields[0].value)] else [];
      assert Appended(fields) == head + Appended(fields[1..]);
      assert Names(fields)[0] == fields[0].name;
      assert forall i :: 0 <= i < |head| ==> Position(Names(fields), head[i].0) == 0;
      ConsOrdered(head, Appended(fields[1..]), Names(fields), Names(fields[1..]));
    }
  }

  lemma ConsOrdered(head: Params, rest: Params, order: seq<string>, tailOrder: seq<string>)
    requires |head| <= 1 && Ordered(rest, tailOrder)
    requires forall i :: 0 <= i < |head| ==> Position(order, head[i].0) == 0
    requires forall i :: 0 <= i < |rest| ==> Position(order, rest[i].0) == 1 + Position(tailOrder, rest[i].0)
    ensures Ordered(head + rest, order)
  {
    var r := head + rest;
    forall i, j | 0 <= i < j < |r|
      ensures Position(order, r[i].0) < Position(order, r[j].0)
    {
      assert r[j] == rest[j - |head|];
      if i < |head| {
        assert r[i] == head[i];
      } else {
        assert r[i] == rest[i - |head|];
      }
    }
  }

  /** Past the first line, positions in the whole order are one more than in the rest. */
  lemma RestPositions(fields: seq<Field>)
    requires DistinctNames(fields) && |fields| > 0
    ensures var rest := Appended(fields[1..]);
      forall i :: 0 <= i < |rest| ==>
        Position(Names(fields), rest[i].0) == 1 + Position(Names(fields[1..]), rest[i].0)
  {
    var rest := Appended(fields[1..]);
    var names := Names(fields);
    assert names == [fields[0].name] + Names(fields[1..]);
    AppendedFromLines(fields[1..]);
    forall i | 0 <= i < |rest|
      ensures Position(names, rest[i].0) == 1 + Position(Names(fields[1..]), rest[i].0)
    {
      var p := Position(Names(fields[1..]), rest[i].0);
      assert fields[1..][p] == fields[p + 1];
      assert fields[0].name != rest[i].0;
      assert names[1..] == Names(fields[1..]);
    }
  }
}
