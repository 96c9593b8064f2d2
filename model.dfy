/**
 * The template model of src/engine/model.rs: named string parameters and named list
 * parameters, kept in two dictionaries that the model's methods update in place.
 */
module ParamModel {

  /** `Param`: one named string value. */
  datatype Param = Param(name: string, value: string)

  /** `ArrayParam`: one named list of strings. */
  datatype ArrayParam = ArrayParam(name: string, value: seq<string>)

  /**
   * Collecting `(name, value)` pairs into a dictionary, in order: each pair is inserted in turn,
   * so a later pair with the same name replaces the earlier one.
   */
  function Collect<V>(pairs: seq<(string, V)>): (r: map<string, V>)
    ensures pairs != [] ==> pairs[|pairs| - 1].0 in r && r[pairs[|pairs| - 1].0] == pairs[|pairs| - 1].1
  {
    if pairs == [] then map[]
    else Collect(pairs[..|pairs| - 1])[pairs[|pairs| - 1].0 := pairs[|pairs| - 1].1]
  }

  function ParamPairs(ps: seq<Param>): (r: seq<(string, string)>)
    ensures |r| == |ps| && forall i :: 0 <= i < |ps| ==> r[i] == (ps[i].name, ps[i].value)
  {
    seq(|ps|, i requires 0 <= i < |ps| => (ps[i].name, ps[i].value))
  }

  function ArrayPairs(aps: seq<ArrayParam>): (r: seq<(string, seq<string>)>)
    ensures |r| == |aps| && forall i :: 0 <= i < |aps| ==> r[i] == (aps[i].name, aps[i].value)
  {
    seq(|aps|, i requires 0 <= i < |aps| => (aps[i].name, aps[i].value))
  }

  /** One more pair is one more insertion. */
  lemma CollectSnoc<V>(pairs: seq<(string, V)>, name: string, value: V)
    ensures Collect(pairs + [(name, value)]) == Collect(pairs)[name := value]
  {
    assert (pairs + [(name, value)])[..|pairs|] == pairs;
  }

  /** A name is a key of the collected dictionary exactly when some pair carries it. */
  lemma {:induction false} CollectKeys<V>(pairs: seq<(string, V)>, name: string)
    ensures name in Collect(pairs) <==> exists i :: 0 <= i < |pairs| && pairs[i].0 == name
  {
    if pairs != [] {
      var front := pairs[..|pairs| - 1];
      CollectKeys(front, name);
      if name in Collect(front) {
        var i :| 0 <= i < |front| && front[i].0 == name;
        assert pairs[i].0 == name;
      }
      if exists i :: 0 <= i < |pairs| && pairs[i].0 == name {
        var i :| 0 <= i < |pairs| && pairs[i].0 == name;
        if i < |front| {
          assert front[i].0 == name;
        }
      }
    }
  }

  /** The value kept for a name is the one of the last pair carrying it. */
  lemma {:induction false} CollectLastWins<V>(pairs: seq<(string, V)>, i: nat)
    requires i < |pairs|
    requires forall j :: i < j < |pairs| ==> pairs[j].0 != pairs[i].0
    ensures pairs[i].0 in Collect(pairs) && Collect(pairs)[pairs[i].0] == pairs[i].1
  {
    var front := pairs[..|pairs| - 1];
    if i < |front| {
      CollectLastWins(front, i);
      assert pairs[|pairs| - 1].0 != pairs[i].0;
    }
  }

  /** `Model`: the two dictionaries, updated in place. */
  class Model {
    var params: map<string, string>
    var arrayParams: map<string, seq<string>>

    /** `new`: no parameters of either kind. */
    constructor ()
      ensures params == map[] && arrayParams == map[]
    {
      params := map[];
      arrayParams := map[];
    }

    /** `new_with_params`: both lists collected, a later entry replacing an earlier one of the same name. */
    constructor WithParams(ps: seq<Param>, aps: seq<ArrayParam>)
      ensures params == Collect(ParamPairs(ps)) && arrayParams == Collect(ArrayPairs(aps))
    {
      params := Collect(ParamPairs(ps));
      arrayParams := Collect(ArrayPairs(aps));
    }

    /** `add_param`: sets or replaces one string parameter and leaves the list parameters alone. */
    method AddParam(name: string, value: string)
      modifies this
      ensures params == old(params)[name := value] && arrayParams == old(arrayParams)
    {
      params := params[name := value];
    }

    /** `add_array_param`: sets or replaces one list parameter and leaves the string parameters alone. */
    method AddArrayParam(name: string, values: seq<string>)
      modifies this
      ensures arrayParams == old(arrayParams)[name := values] && params == old(params)
    {
      arrayParams := arrayParams[name := values];
    }
  }

  /** Building a model from a list with one more parameter is the same as adding it afterwards. */
  lemma WithParamsThenAdd(ps: seq<Param>, p: Param)
    ensures Collect(ParamPairs(ps + [p])) == Collect(ParamPairs(ps))[p.name := p.value]
  {
    assert ParamPairs(ps + [p]) == ParamPairs(ps) + [(p.name, p.value)];
    CollectSnoc(ParamPairs(ps), p.name, p.value);
  }

  lemma WithArrayParamsThenAdd(aps: seq<ArrayParam>, a: ArrayParam)
    ensures Collect(ArrayPairs(aps + [a])) == Collect(ArrayPairs(aps))[a.name := a.value]
  {
    assert ArrayPairs(aps + [a]) == ArrayPairs(aps) + [(a.name, a.value)];
    CollectSnoc(ArrayPairs(aps), a.name, a.value);
  }

  /** The parameters of `new_with_params` are named by the list, each with its last value. */
  lemma WithParamsContents(ps: seq<Param>, name: string)
    ensures name in Collect(ParamPairs(ps)) <==> exists i :: 0 <= i < |ps| && ps[i].name == name
    ensures forall i :: 0 <= i < |ps| && ps[i].name == name && (forall j :: i < j < |ps| ==> ps[j].name != name) ==>
      name in Collect(ParamPairs(ps)) && Collect(ParamPairs(ps))[name] == ps[i].value
  {
    var pairs := ParamPairs(ps);
    CollectKeys(pairs, name);
    if exists i :: 0 <= i < |pairs| && pairs[i].0 == name {
      var i :| 0 <= i < |pairs| && pairs[i].0 == name;
      assert ps[i].name == name;
    }
    forall i | 0 <= i < |ps| && ps[i].name == name && (forall j :: i < j < |ps| ==> ps[j].name != name)
      ensures name in Collect(pairs) && Collect(pairs)[name] == ps[i].value
    {
      CollectLastWins(pairs, i);
    }
  }
}
