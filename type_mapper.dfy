/**
 * `TypeMapper` (Foundations/Extensions/TypeMapper.cs): infers the binding of generic
 * parameters to concrete types by matching an argument type against a parameter type,
 * filling a dictionary in place.
 */
module TypeMapping {
  import opened Wrappers

  /**
   * The .NET types the matcher inspects: a generic parameter (`IsGenericParameter`), a
   * generic type with its type arguments (`IsGenericType`, `GenericTypeArguments`), or any
   * other type with its base type (`BaseType`, None for `object`).
   */
  datatype Ty =
    | GenericParam(name: string)
    | Constructed(definition: string, arguments: seq<Ty>)
    | Plain(name: string, base: Option<Ty>)

  /** `BaseType`, as far as the matcher asks for it (only of a non-generic argument). */
  function BaseType(t: Ty): Option<Ty> {
    if t.Plain? then t.base else None
  }

  /** The exceptions MapTypes can raise. */
  datatype MapError =
    | ArgumentMismatch   // ArgumentException: a parameter already bound to another type
    | IndexOutOfRange    // the argument has fewer type arguments than the parameter

  /** The dictionary after a call, and the exception that ended it, if any. */
  datatype Mapped = Mapped(mapping: map<Ty, Ty>, error: Option<MapError>)

  /** Nesting depth of a type: the measure under which MapTypes terminates. */
  ghost function Height(t: Ty): nat
    decreases t, 1
  {
    match t
    case GenericParam(_) => 0
    case Constructed(_, arguments) => 1 + MaxHeight(arguments)
    case Plain(_, base) => if base.Some? then 1 + Height(base.value) else 0
  }

  ghost function MaxHeight(ts: seq<Ty>): nat
    decreases ts, 0
  {
    if |ts| == 0 then 0
    else
      var h := Height(ts[0]);
      var rest := MaxHeight(ts[1..]);
      if h < rest then rest else h
  }

  ghost function Rank(argument: Option<Ty>): nat {
    if argument.Some? then Height(argument.value) + 1 else 0
  }

  lemma {:induction false} HeightBound(ts: seq<Ty>, i: nat)
    requires i < |ts|
    ensures Height(ts[i]) <= MaxHeight(ts)
  {
    if i > 0 {
      HeightBound(ts[1..], i - 1);
    }
  }

  /** MapTypes(argument, parameter) run on the dictionary `m` (lines 15-59). */
  function Map(m: map<Ty, Ty>, argument: Option<Ty>, parameter: Ty): Mapped
    decreases Rank(argument), 0
  {
    if argument.None? then Mapped(m, None)
    else
      var a := argument.value;
      if parameter.GenericParam? then
        if parameter in m then
          if m[parameter] != a then Mapped(m, Some(ArgumentMismatch)) else Mapped(m, None)
        else Mapped(m[parameter := a], None)
      else if parameter.Constructed? then
        if !a.Constructed? then Map(m, BaseType(a), parameter)
        else MapPairs(m, a.arguments, parameter.arguments, 0)
      else Mapped(m, None)
  }

  /** The `for` loop of lines 53-56 from index `i` on: pairwise, in index order. */
  function MapPairs(m: map<Ty, Ty>, concrete: seq<Ty>, generic: seq<Ty>, i: nat): Mapped
    requires i <= |generic|
    decreases MaxHeight(concrete) + 1, |generic| - i
  {
    if i == |generic| then Mapped(m, None)
    else if i >= |concrete| then Mapped(m, Some(IndexOutOfRange))
    else
      HeightBound(concrete, i);
      var r := Map(m, Some(concrete[i]), generic[i]);
      if r.error.Some? then r else MapPairs(r.mapping, concrete, generic, i + 1)
  }

  /** `m'` keeps every entry of `m`. */
  ghost predicate Extends(m: map<Ty, Ty>, m': map<Ty, Ty>) {
    forall k :: k in m ==> k in m' && m'[k] == m[k]
  }

  /** A null argument leaves the dictionary unchanged (lines 19-22). */
  lemma MapNullArgument(m: map<Ty, Ty>, parameter: Ty)
    ensures Map(m, None, parameter) == Mapped(m, None)
  {
  }

  /**
   * A generic parameter not yet mapped is bound to the argument; one already bound to
   * the same type changes nothing; one bound to another type raises ArgumentException
   * (lines 24-37).
   */
  lemma MapGenericParameter(m: map<Ty, Ty>, a: Ty, name: string)
    ensures GenericParam(name) !in m ==>
      Map(m, Some(a), GenericParam(name)) == Mapped(m[GenericParam(name) := a], None)
    ensures GenericParam(name) in m && m[GenericParam(name)] == a ==>
      Map(m, Some(a), GenericParam(name)) == Mapped(m, None)
    ensures GenericParam(name) in m && m[GenericParam(name)] != a ==>
      Map(m, Some(a), GenericParam(name)) == Mapped(m, Some(ArgumentMismatch))
  {
  }

  /** A parameter that is neither a generic parameter nor a generic type binds nothing (lines 24, 39). */
  lemma MapOtherParameter(m: map<Ty, Ty>, argument: Option<Ty>, name: string, base: Option<Ty>)
    ensures Map(m, argument, Plain(name, base)) == Mapped(m, None)
  {
  }

  /** A generic parameter type against a non-generic argument tries the argument's base type (lines 41-44). */
  lemma MapViaBaseType(m: map<Ty, Ty>, a: Ty, parameter: Ty)
    requires parameter.Constructed? && !a.Constructed?
    ensures Map(m, Some(a), parameter) == Map(m, BaseType(a), parameter)
  {
  }

  /**
   * Entries are never removed or overwritten, also when an exception ends the call, and
   * every entry added is keyed by a generic parameter.
   */
  lemma {:induction false} MapGrows(m: map<Ty, Ty>, argument: Option<Ty>, parameter: Ty)
    ensures Extends(m, Map(m, argument, parameter).mapping)
    ensures forall k :: k in Map(m, argument, parameter).mapping && k !in m ==> k.GenericParam?
    decreases Rank(argument), 0
  {
    if argument.Some? {
      var a := argument.value;
      if parameter.Constructed? {
        if !a.Constructed? {
          MapGrows(m, BaseType(a), parameter);
        } else {
          MapPairsGrows(m, a.arguments, parameter.arguments, 0);
        }
      }
    }
  }

  lemma {:induction false} MapPairsGrows(m: map<Ty, Ty>, concrete: seq<Ty>, generic: seq<Ty>, i: nat)
    requires i <= |generic|
    ensures Extends(m, MapPairs(m, concrete, generic, i).mapping)
    ensures forall k :: k in MapPairs(m, concrete, generic, i).mapping && k !in m ==> k.GenericParam?
    decreases MaxHeight(concrete) + 1, |generic| - i
  {
    if i < |generic| && i < |concrete| {
      HeightBound(concrete, i);
      var r := Map(m, Some(concrete[i]), generic[i]);
      MapGrows(m, Some(concrete[i]), generic[i]);
      if r.error.None? {
        MapPairsGrows(r.mapping, concrete, generic, i + 1);
      }
    }
  }

  /**
   * A successful match stays successful, and adds nothing, on any dictionary that keeps
   * the bindings it produced: in particular repeating it changes nothing.
   */
  lemma {:induction false} MapStable(m: map<Ty, Ty>, argument: Option<Ty>, parameter: Ty, m': map<Ty, Ty>)
    requires Map(m, argument, parameter).error.None?
    requires Extends(Map(m, argument, parameter).mapping, m')
    ensures Map(m', argument, parameter) == Mapped(m', None)
    decreases Rank(argument), 0
  {
    if argument.Some? {
      var a := argument.value;
      if parameter.Constructed? {
        if !a.Constructed? {
          MapStable(m, BaseType(a), parameter, m');
        } else {
          MapPairsStable(m, a.arguments, parameter.arguments, 0, m');
        }
      }
    }
  }

  lemma {:induction false} MapPairsStable(m: map<Ty, Ty>, concrete: seq<Ty>, generic: seq<Ty>, i: nat, m': map<Ty, Ty>)
    requires i <= |generic|
    requires MapPairs(m, concrete, generic, i).error.None?
    requires Extends(MapPairs(m, concrete, generic, i).mapping, m')
    ensures MapPairs(m', concrete, generic, i) == Mapped(m', None)
    decreases MaxHeight(concrete) + 1, |generic| - i
  {
    if i < |generic| {
      HeightBound(concrete, i);
      var r := Map(m, Some(concrete[i]), generic[i]);
      MapPairsGrows(r.mapping, concrete, generic, i + 1);
      MapStable(m, Some(concrete[i]), generic[i], m');
      MapPairsStable(r.mapping, concrete, generic, i + 1, m');
    }
  }

  /**
   * When both types are generic and the match succeeds, the parameter has no more type
   * arguments than the argument, and each generic parameter among its type arguments is
   * bound to the argument's type argument at the same index (lines 47-56).
   */
  lemma MapPairwise(m: map<Ty, Ty>, definition: string, concrete: seq<Ty>, definition': string, generic: seq<Ty>)
    requires Map(m, Some(Constructed(definition, concrete)), Constructed(definition', generic)).error.None?
    ensures |generic| <= |concrete|
    ensures var r := Map(m, Some(Constructed(definition, concrete)), Constructed(definition', generic)).mapping;
      forall j :: 0 <= j < |generic| && generic[j].GenericParam? ==> generic[j] in r && r[generic[j]] == concrete[j]
  {
    MapPairsBinds(m, concrete, generic, 0);
  }

  lemma {:induction false} MapPairsBinds(m: map<Ty, Ty>, concrete: seq<Ty>, generic: seq<Ty>, i: nat)
    requires i <= |generic|
    requires MapPairs(m, concrete, generic, i).error.None?
    ensures i < |generic| ==> |generic| <= |concrete|
    ensures var r := MapPairs(m, concrete, generic, i).mapping;
      forall j :: i <= j < |generic| && generic[j].GenericParam? ==> generic[j] in r && r[generic[j]] == concrete[j]
    decreases |generic| - i
  {
    if i < |generic| && i < |concrete| {
      HeightBound(concrete, i);
      var step := Map(m, Some(concrete[i]), generic[i]);
      MapPairsBinds(step.mapping, concrete, generic, i + 1);
      MapPairsGrows(step.mapping, concrete, generic, i + 1);
    }
  }

  class TypeMapper {
    var parameterToArgumentTypeMapping: map<Ty, Ty>

    constructor ()
      ensures parameterToArgumentTypeMapping == map[]
    {
      parameterToArgumentTypeMapping := map[];
    }

    /**
     * Match `argument` (None for null) against `parameter`. An exception leaves the
     * bindings added before it in place.
     */
    method MapTypes(argument: Option<Ty>, parameter: Ty) returns (error: Option<MapError>)
      modifies this
      decreases Rank(argument)
      ensures Map(old(parameterToArgumentTypeMapping), argument, parameter)
              == Mapped(parameterToArgumentTypeMapping, error)
    {
      if argument.None? {
        return None;
      }
      var a := argument.value;
      if parameter.GenericParam? {
        if parameter in parameterToArgumentTypeMapping {
          if parameterToArgumentTypeMapping[parameter] != a {
            return Some(ArgumentMismatch);
          }
        } else {
          parameterToArgumentTypeMapping := parameterToArgumentTypeMapping[parameter := a];
        }
      } else if parameter.Constructed? {
        if !a.Constructed? {
          error := MapTypes(BaseType(a), parameter);
          return;
        } else {
          var concreteTypeArgs := a.arguments;
          var genericTypeArgs := parameter.arguments;
          for i := 0 to |genericTypeArgs|
            invariant MapPairs(parameterToArgumentTypeMapping, concreteTypeArgs, genericTypeArgs, i)
                      == Map(old(parameterToArgumentTypeMapping), argument, parameter)
          {
            if i >= |concreteTypeArgs| {
              return Some(IndexOutOfRange);
            }
            HeightBound(concreteTypeArgs, i);
            error := MapTypes(Some(concreteTypeArgs[i]), genericTypeArgs[i]);
            if error.Some? {
              return;
            }
          }
        }
      }
      return None;
    }
  }
}
