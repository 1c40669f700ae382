// native/v2_route_selector/src/selector.cpp: one mutated capture map, checked 64-bit products
// and a three-valued evaluation.
module NativeSelector {
  import opened Wrappers
  import opened Int64
  import opened RouteModel
  import Permutations
  import Strides

  datatype Evaluation = Match | NoMatch | Unsupported

  datatype ValueKind =
    | ContiguousStridesKind
    | ProductKind
    | InversePermutationKind
    | ElementKind
    | HeadKind
    | TailKind
    | ChainPermutationsKind
    | PermutedContiguousStridesKind

  datatype NativeValue = NativeValue(name: string, kind: ValueKind, sources: seq<string>, parameter: nat)

  // The tagged forms the generated table is built from.
  datatype NativeConstraint =
    | ScalarBounds(name: string, minimum: Option<int64>, maximum: Option<int64>, multipleOf: Option<int64>)
    | IndexedBounds(name: string, index: nat, minimum: Option<int64>, maximum: Option<int64>, multipleOf: Option<int64>)
    | RankRange(name: string, rankMinimum: Option<nat>, rankMaximum: Option<nat>)
    | ExactLength(name: string, length: nat)
    | IotaForm(name: string)
    | Equals(names: seq<string>)
    | Divides(names: seq<string>)

  datatype RouteDescriptor = RouteDescriptor(
    id: string,
    tensors: seq<TensorDescriptor>,
    values: seq<NativeValue>,
    constraints: seq<NativeConstraint>)

  datatype Query = Query(
    tensors: map<string, Tensor>,
    attributes: set<string>,
    allowedRouteIds: Option<seq<string>>)

  datatype Selection = Selected(routeId: string) | NothingMatches | NotSupported

  ghost predicate QueryFits(query: Query) {
    forall role :: role in query.tensors ==> TensorFits(query.tensors[role])
  }

  //////////////////////////////////////////////////////////////////////////////
  // Specification
  //////////////////////////////////////////////////////////////////////////////

  // The operation a native definition stands for, when it has the sources its kind needs.
  function AsOperation(definition: NativeValue): Option<Operation> {
    var s, n := definition.sources, definition.parameter;
    match definition.kind
    case ChainPermutationsKind => if |s| == 2 then Some(ChainPermutations(s[0], s[1])) else None
    case PermutedContiguousStridesKind => if |s| == 2 then Some(PermutedContiguousStrides(s[0], s[1])) else None
    case ContiguousStridesKind => if |s| == 1 then Some(ContiguousStrides(s[0])) else None
    case ProductKind => if |s| == 1 then Some(ProductOf(s[0])) else None
    case InversePermutationKind => if |s| == 1 then Some(InversePermutation(s[0])) else None
    case ElementKind => if |s| == 1 then Some(Element(s[0], n)) else None
    case HeadKind => if |s| == 1 then Some(Head(s[0], n)) else None
    case TailKind => if |s| == 1 then Some(Tail(s[0], n)) else None
  }

  datatype Outcome<T> = Done(value: T) | Failed(evaluation: Evaluation) {
    function Status(): Evaluation {
      if Done? then Match else evaluation
    }
  }

  // An operand error rejects before any product is formed.
  ghost function NativeCompute(definition: NativeValue, env: Environment): (r: Outcome<Value>)
    ensures r.Failed? ==> r.evaluation != Match
  {
    match AsOperation(definition)
    case None => Failed(NoMatch)
    case Some(operation) =>
      match Compute(operation, env)
      case None => Failed(NoMatch)
      case Some(value) => if ProductsFit(operation, env) then Done(value) else Failed(Unsupported)
  }

  ghost function NativeResolve(definitions: seq<NativeValue>, env: Environment): (r: Outcome<Environment>)
    ensures r.Failed? ==> r.evaluation != Match
  {
    if definitions == [] then Done(env)
    else match NativeCompute(definitions[0], env)
      case Failed(e) => Failed(e)
      case Done(value) => NativeResolve(definitions[1..], env[definitions[0].name := value])
  }

  predicate ScalarHolds(minimum: Option<int64>, maximum: Option<int64>, multipleOf: Option<int64>, value: int) {
    && (minimum.Some? ==> minimum.value <= value)
    && (maximum.Some? ==> value <= maximum.value)
    && (multipleOf.Some? ==> multipleOf.value != 0 && value % multipleOf.value == 0)
  }

  predicate VectorHolds(constraint: NativeConstraint, v: seq<int>)
    requires constraint.IndexedBounds? || constraint.RankRange? || constraint.ExactLength? || constraint.IotaForm?
  {
    match constraint
    case IndexedBounds(_, index, minimum, maximum, multipleOf) =>
      index < |v| && ScalarHolds(minimum, maximum, multipleOf, v[index])
    case RankRange(_, minimum, maximum) =>
      (minimum.Some? ==> minimum.value <= |v|) && (maximum.Some? ==> |v| <= maximum.value)
    case ExactLength(_, length) => |v| == length
    case IotaForm(_) => v == Permutations.Iota(|v|)
  }

  predicate ConstraintHolds(constraint: NativeConstraint, env: Environment) {
    match constraint
    case Equals(names) =>
      && names != []
      && names[0] in env
      && (forall i :: 1 <= i < |names| ==> names[i] in env && env[names[i]] == env[names[0]])
    case Divides(names) =>
      && names != []
      && VectorOf(env, names[0]).Some?
      && (forall i :: 1 <= i < |names| ==>
        VectorOf(env, names[i]).Some? && AllDivide(VectorOf(env, names[0]).value, VectorOf(env, names[i]).value))
    case ScalarBounds(name, minimum, maximum, multipleOf) =>
      name in env && env[name].Scalar? && ScalarHolds(minimum, maximum, multipleOf, env[name].n)
    case _ => VectorOf(env, constraint.name).Some? && VectorHolds(constraint, VectorOf(env, constraint.name).value)
  }

  function NativeCapture(route: RouteDescriptor, query: Query): Option<Environment> {
    if |query.tensors| != |route.tensors| then None
    else CaptureTensors(route.tensors, query.tensors, map[])
  }

  ghost function Evaluated(route: RouteDescriptor, query: Query): Evaluation {
    match NativeCapture(route, query)
    case None => NoMatch
    case Some(captures) =>
      match NativeResolve(route.values, captures)
      case Failed(e) => e
      case Done(env) =>
        if forall i :: 0 <= i < |route.constraints| ==> ConstraintHolds(route.constraints[i], env)
        then Match else NoMatch
  }

  predicate Allowed(query: Query, id: string) {
    query.allowedRouteIds.None? || id in query.allowedRouteIds.value
  }

  ghost function SelectedFrom(routes: seq<RouteDescriptor>, query: Query): Selection {
    if routes == [] then NothingMatches
    else if !Allowed(query, routes[0].id) then SelectedFrom(routes[1..], query)
    else match Evaluated(routes[0], query)
      case Match => Selected(routes[0].id)
      case Unsupported => NotSupported
      case NoMatch => SelectedFrom(routes[1..], query)
  }

  ghost function SelectionOf(table: map<string, seq<RouteDescriptor>>, op: string, query: Query): Selection {
    if query.attributes != {} || op !in table then NotSupported else SelectedFrom(table[op], query)
  }

  //////////////////////////////////////////////////////////////////////////////
  // Captures
  //////////////////////////////////////////////////////////////////////////////

  method StoreCapture(captures: Captures, name: string, value: Value) returns (ok: bool)
    requires EnvironmentFits(captures.entries) && ValueFits(value)
    modifies captures
    ensures EnvironmentFits(captures.entries)
    ensures ok == Store(old(captures.entries), name, value).Some?
    ensures captures.entries == if ok then Store(old(captures.entries), name, value).value else old(captures.entries)
  {
    if name in captures.entries {
      return captures.entries[name] == value;
    }
    captures.entries := captures.entries[name := value];
    ok := true;
  }

  method IdentityPermutation(rank: nat) returns (permutation: Vec)
    requires rank <= INT64_MAX
    ensures permutation == Permutations.Iota(rank)
  {
    permutation := [];
    for index := 0 to rank
      invariant permutation == Permutations.Iota(index)
    {
      permutation := permutation + [index];
    }
  }

  method CaptureOne(descriptor: TensorDescriptor, tensor: Tensor, captures: Captures) returns (ok: bool)
    requires EnvironmentFits(captures.entries) && TensorFits(tensor)
    modifies captures
    ensures EnvironmentFits(captures.entries)
    ensures ok == CaptureTensor(descriptor, tensor, old(captures.entries)).Some?
    ensures ok ==> captures.entries == CaptureTensor(descriptor, tensor, old(captures.entries)).value
  {
    if (descriptor.dtype.Some? && tensor.dtype != descriptor.dtype.value) ||
       |tensor.dimensions| != |tensor.strides| ||
       (tensor.permutation.Some? && |tensor.permutation.value| != |tensor.dimensions|) {
      return false;
    }
    ok := StoreCapture(captures, descriptor.dimensionsCapture, Vector(tensor.dimensions));
    if !ok { return; }
    ok := StoreCapture(captures, descriptor.stridesCapture, Vector(tensor.strides));
    if !ok { return; }
    if descriptor.permutationCapture.Some? {
      var permutation;
      if tensor.permutation.Some? {
        permutation := tensor.permutation.value;
      } else {
        permutation := IdentityPermutation(|tensor.dimensions|);
      }
      ok := StoreCapture(captures, descriptor.permutationCapture.value, Vector(permutation));
    }
  }

  method CaptureQuery(route: RouteDescriptor, query: Query, captures: Captures) returns (result: Evaluation)
    requires QueryFits(query) && captures.entries == map[]
    modifies captures
    ensures EnvironmentFits(captures.entries)
    ensures result == if NativeCapture(route, query).Some? then Match else NoMatch
    ensures result == Match ==> captures.entries == NativeCapture(route, query).value
  {
    if |query.tensors| != |route.tensors| {
      return NoMatch;
    }
    var todo := route.tensors;
    while todo != []
      invariant EnvironmentFits(captures.entries)
      invariant CaptureTensors(todo, query.tensors, captures.entries)
             == CaptureTensors(route.tensors, query.tensors, map[])
      decreases |todo|
    {
      if todo[0].role !in query.tensors {
        return NoMatch;
      }
      var ok := CaptureOne(todo[0], query.tensors[todo[0].role], captures);
      if !ok {
        return NoMatch;
      }
      todo := todo[1..];
    }
    result := Match;
  }

  //////////////////////////////////////////////////////////////////////////////
  // Derived values
  //////////////////////////////////////////////////////////////////////////////

  // find_vector
  method FindVector(captures: Captures, name: string) returns (found: bool, v: Vec)
    requires EnvironmentFits(captures.entries)
    ensures found == VectorOf(captures.entries, name).Some?
    ensures found ==> v == VectorOf(captures.entries, name).value
  {
    if name in captures.entries && captures.entries[name].Vector? {
      assert ValueFits(captures.entries[name]);
      return true, captures.entries[name].v;
    }
    found, v := false, [];
  }

  // The operations on one vector.
  method ResolveOne(definition: NativeValue, captures: Captures) returns (result: Evaluation, value: Value)
    requires EnvironmentFits(captures.entries)
    requires definition.kind != ChainPermutationsKind && definition.kind != PermutedContiguousStridesKind
    ensures result == NativeCompute(definition, captures.entries).Status()
    ensures result == Match ==> value == NativeCompute(definition, captures.entries).value
  {
    value := Scalar(0);
    if |definition.sources| != 1 {
      return NoMatch, value;
    }
    var found, source := FindVector(captures, definition.sources[0]);
    if !found {
      return NoMatch, value;
    }
    result := Match;
    match definition.kind {
      case ContiguousStridesKind =>
        var ok, strides := Strides.CheckedStrides(source);
        if !ok { return Unsupported, value; }
        value := Vector(strides);
      case ProductKind =>
        var ok, product := Strides.CheckedProduct(source);
        if !ok { return Unsupported, value; }
        value := Scalar(product);
      case InversePermutationKind =>
        var isPermutation := Permutations.ScanPermutation(source);
        if !isPermutation { return NoMatch, value; }
        var inverse := Permutations.InvertInPlace(source);
        value := Vector(inverse);
      case ElementKind =>
        if definition.parameter >= |source| { return NoMatch, value; }
        value := Scalar(source[definition.parameter]);
      case HeadKind =>
        var length := if definition.parameter < |source| then definition.parameter else |source|;
        value := Vector(source[..length]);
      case TailKind =>
        var drop := if definition.parameter < |source| then definition.parameter else |source|;
        value := Vector(source[drop..]);
    }
  }

  // The operations on two vectors.
  method ResolveTwo(definition: NativeValue, captures: Captures) returns (result: Evaluation, value: Value)
    requires EnvironmentFits(captures.entries)
    requires definition.kind == ChainPermutationsKind || definition.kind == PermutedContiguousStridesKind
    ensures result == NativeCompute(definition, captures.entries).Status()
    ensures result == Match ==> value == NativeCompute(definition, captures.entries).value
  {
    value := Scalar(0);
    if |definition.sources| != 2 {
      return NoMatch, value;
    }
    var firstFound, first := FindVector(captures, definition.sources[0]);
    var secondFound, second := FindVector(captures, definition.sources[1]);
    if !firstFound || !secondFound || |first| != |second| {
      return NoMatch, value;
    }
    if definition.kind == ChainPermutationsKind {
      var ok := Permutations.ScanPermutation(first);
      if !ok { return NoMatch, value; }
      ok := Permutations.ScanPermutation(second);
      if !ok { return NoMatch, value; }
      var chained := PickAll(second, first);
      return Match, Vector(chained);
    }
    var ok := Permutations.ScanPermutation(second);
    if !ok { return NoMatch, value; }
    ghost var operation := AsOperation(definition).value;
    assert Compute(operation, captures.entries) == Some(Vector(Strides.PermutedStrides(first, second)));
    var base := PickAll(first, second);
    assert ProductsFit(operation, captures.entries) <==> Strides.RunningProductsFit(base, |base| - 1);
    var fits, baseStrides := Strides.CheckedStrides(base);
    if !fits { return Unsupported, value; }
    var logical := Strides.ScatterByPermutation(baseStrides, second);
    assert baseStrides == Strides.Strides(Permutations.Select(first, second));
    forall v | 0 <= v < |second| ensures logical[v] == Strides.PermutedStrides(first, second)[v] {
      Permutations.PermutationIsOnto(second, v);
    }
    assert logical == Strides.PermutedStrides(first, second);
    result, value := Match, Vector(logical);
  }

  // The push_back loop: values[axes[0]], values[axes[1]], ...
  method PickAll(values: Vec, axes: Vec) returns (picked: Vec)
    requires |values| == |axes| && Permutations.IsPermutation(axes)
    ensures picked == Permutations.Select(values, axes)
  {
    picked := [];
    for k := 0 to |axes|
      invariant picked == Permutations.Select(values, axes)[..k]
    {
      picked := picked + [values[axes[k]]];
    }
  }

  method ResolveValues(route: RouteDescriptor, captures: Captures) returns (result: Evaluation)
    requires EnvironmentFits(captures.entries)
    modifies captures
    ensures EnvironmentFits(captures.entries)
    ensures result == NativeResolve(route.values, old(captures.entries)).Status()
    ensures result == Match ==> captures.entries == NativeResolve(route.values, old(captures.entries)).value
  {
    var todo := route.values;
    while todo != []
      invariant EnvironmentFits(captures.entries)
      invariant NativeResolve(todo, captures.entries) == NativeResolve(route.values, old(captures.entries))
      decreases |todo|
    {
      var value;
      if todo[0].kind == ChainPermutationsKind || todo[0].kind == PermutedContiguousStridesKind {
        result, value := ResolveTwo(todo[0], captures);
      } else {
        result, value := ResolveOne(todo[0], captures);
      }
      if result != Match {
        return;
      }
      ComputedValueFits(AsOperation(todo[0]).value, captures.entries);
      captures.entries := captures.entries[todo[0].name := value];
      todo := todo[1..];
    }
    result := Match;
  }

  //////////////////////////////////////////////////////////////////////////////
  // Constraints
  //////////////////////////////////////////////////////////////////////////////

  method ScalarAccepts(minimum: Option<int64>, maximum: Option<int64>, multipleOf: Option<int64>, value: int64)
    returns (accepted: bool)
    ensures accepted == ScalarHolds(minimum, maximum, multipleOf, value)
  {
    if (minimum.Some? && value < minimum.value) || (maximum.Some? && value > maximum.value) {
      return false;
    }
    if multipleOf.None? {
      return true;
    }
    var divisor := multipleOf.value;
    if divisor == 0 {
      return false;
    }
    if divisor == -1 {
      MultipleMod(-1, value * -1);
      return true;
    }
    TruncModZero(value, divisor);
    accepted := TruncMod(value, divisor) == 0;
  }

  method AllEqual(names: seq<string>, captures: Captures) returns (accepted: bool)
    ensures accepted == ConstraintHolds(Equals(names), captures.entries)
  {
    if names == [] {
      return false;
    }
    if names[0] !in captures.entries {
      return false;
    }
    var first := captures.entries[names[0]];
    for k := 1 to |names|
      invariant forall i :: 0 <= i < k ==> names[i] in captures.entries && captures.entries[names[i]] == first
    {
      if names[k] !in captures.entries || captures.entries[names[k]] != first {
        return false;
      }
    }
    accepted := true;
  }

  method DivideElementwise(divisors: Vec, values: Vec) returns (accepted: bool)
    ensures accepted == AllDivide(divisors, values)
  {
    if |values| != |divisors| {
      return false;
    }
    for index := 0 to |divisors|
      invariant forall i :: 0 <= i < index ==> divisors[i] > 0 && values[i] % divisors[i] == 0
    {
      var divisor := divisors[index];
      if divisor <= 0 {
        return false;
      }
      TruncModZero(values[index], divisor);
      if TruncMod(values[index], divisor) != 0 {
        return false;
      }
    }
    accepted := true;
  }

  method DividesAll(names: seq<string>, captures: Captures) returns (accepted: bool)
    requires EnvironmentFits(captures.entries)
    ensures accepted == ConstraintHolds(Divides(names), captures.entries)
  {
    if names == [] {
      return false;
    }
    var found, divisors := FindVector(captures, names[0]);
    if !found {
      return false;
    }
    for k := 1 to |names|
      invariant forall i :: 1 <= i < k ==>
        VectorOf(captures.entries, names[i]).Some? && AllDivide(divisors, VectorOf(captures.entries, names[i]).value)
    {
      var current, values := FindVector(captures, names[k]);
      if !current {
        return false;
      }
      var divides := DivideElementwise(divisors, values);
      if !divides {
        return false;
      }
    }
    accepted := true;
  }

  method VectorAccepts(constraint: NativeConstraint, value: Vec) returns (accepted: bool)
    requires constraint.IndexedBounds? || constraint.RankRange? || constraint.ExactLength? || constraint.IotaForm?
    ensures accepted == VectorHolds(constraint, value)
  {
    match constraint {
      case IndexedBounds(_, index, minimum, maximum, multipleOf) =>
        if index >= |value| { return false; }
        accepted := ScalarAccepts(minimum, maximum, multipleOf, value[index]);
      case ExactLength(_, length) =>
        accepted := |value| == length;
      case RankRange(_, minimum, maximum) =>
        accepted := (minimum.None? || |value| >= minimum.value) && (maximum.None? || |value| <= maximum.value);
      case IotaForm(_) =>
        for index := 0 to |value|
          invariant value[..index] == Permutations.Iota(index)
        {
          if value[index] != index {
            assert value[index] != Permutations.Iota(|value|)[index];
            return false;
          }
        }
        accepted := true;
    }
  }

  method ConstraintAccepts(constraint: NativeConstraint, captures: Captures) returns (accepted: bool)
    requires EnvironmentFits(captures.entries)
    ensures accepted == ConstraintHolds(constraint, captures.entries)
  {
    if constraint.Equals? {
      accepted := AllEqual(constraint.names, captures);
      return;
    }
    if constraint.Divides? {
      accepted := DividesAll(constraint.names, captures);
      return;
    }
    if constraint.name !in captures.entries {
      return false;
    }
    assert ValueFits(captures.entries[constraint.name]);
    if constraint.ScalarBounds? {
      if !captures.entries[constraint.name].Scalar? {
        return false;
      }
      accepted := ScalarAccepts(constraint.minimum, constraint.maximum, constraint.multipleOf,
        captures.entries[constraint.name].n);
      return;
    }
    if !captures.entries[constraint.name].Vector? {
      return false;
    }
    accepted := VectorAccepts(constraint, captures.entries[constraint.name].v);
  }

  //////////////////////////////////////////////////////////////////////////////
  // Evaluation and selection
  //////////////////////////////////////////////////////////////////////////////

  method Evaluate(route: RouteDescriptor, query: Query) returns (result: Evaluation)
    requires QueryFits(query)
    ensures result == Evaluated(route, query)
  {
    var captures := new Captures();
    result := CaptureQuery(route, query, captures);
    if result != Match {
      return;
    }
    result := ResolveValues(route, captures);
    if result != Match {
      return;
    }
    ghost var env := captures.entries;
    for k := 0 to |route.constraints|
      invariant captures.entries == env
      invariant forall i :: 0 <= i < k ==> ConstraintHolds(route.constraints[i], captures.entries)
    {
      var accepted := ConstraintAccepts(route.constraints[k], captures);
      if !accepted {
        return NoMatch;
      }
    }
    result := Match;
  }

  method Select(table: map<string, seq<RouteDescriptor>>, op: string, query: Query) returns (selection: Selection)
    requires QueryFits(query)
    ensures selection == SelectionOf(table, op, query)
  {
    if query.attributes != {} {
      return NotSupported;
    }
    if op !in table {
      return NotSupported;
    }
    var todo := table[op];
    while todo != []
      invariant SelectedFrom(todo, query) == SelectedFrom(table[op], query)
      decreases |todo|
    {
      if Allowed(query, todo[0].id) {
        var result := Evaluate(todo[0], query);
        if result == Unsupported {
          return NotSupported;
        }
        if result == Match {
          return Selected(todo[0].id);
        }
      }
      todo := todo[1..];
    }
    selection := NothingMatches;
  }
}
