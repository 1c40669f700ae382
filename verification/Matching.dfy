// routing/v2/matching.py: the Python evaluator. Integers are unbounded, derived values live in
// their own dictionary, and numeric checks go through float().
module Matching {
  import opened Wrappers
  import opened RouteModel
  import opened Doubles
  import Permutations
  import Strides

  datatype Dimension = Dimension(name: string, size: int, stride: int)

  datatype ConcreteTensor = ConcreteTensor(
    dtype: string,
    dimensions: seq<Dimension>,
    permutation: Option<seq<int>>)

  datatype Bound = IntBound(n: int) | FloatBound(r: real)

  datatype Literal = Number(n: int) | Numbers(v: seq<int>)

  // The flat record of models.py; has_value and value are `literal`.
  datatype ConstraintCheck = ConstraintCheck(
    name: Option<string>,
    length: Option<int>,
    rankMin: Option<int>,
    rankMax: Option<int>,
    index: Option<int>,
    min: Option<Bound>,
    max: Option<Bound>,
    multipleOf: Option<int>,
    iota: bool,
    equals: seq<string>,
    divides: seq<string>,
    literal: Option<Literal>)

  datatype Route = Route(
    id: string,
    tensors: seq<TensorDescriptor>,
    values: seq<ValueDefinition>,
    checks: seq<ConstraintCheck>,
    attributes: set<string>)

  // What evaluating a route can do: `value % 0` raises.
  datatype Verdict = Accepted | Rejected | DivisionByZero

  function Sizes(tensor: ConcreteTensor): (s: seq<int>)
    ensures |s| == |tensor.dimensions|
  {
    seq(|tensor.dimensions|, i requires 0 <= i < |tensor.dimensions| => tensor.dimensions[i].size)
  }

  function StrideList(tensor: ConcreteTensor): (s: seq<int>)
    ensures |s| == |tensor.dimensions|
  {
    seq(|tensor.dimensions|, i requires 0 <= i < |tensor.dimensions| => tensor.dimensions[i].stride)
  }

  // The serialized tensor handed to the native selector.
  function Payload(tensor: ConcreteTensor): Tensor {
    Tensor(tensor.dtype, Sizes(tensor), StrideList(tensor), tensor.permutation)
  }

  function Payloads(tensors: map<string, ConcreteTensor>): map<string, Tensor> {
    map name | name in tensors :: Payload(tensors[name])
  }

  //////////////////////////////////////////////////////////////////////////////
  // Captures and derived values
  //////////////////////////////////////////////////////////////////////////////

  method StoreCapture(captures: Captures, name: string, values: Value) returns (ok: bool)
    modifies captures
    ensures ok == Store(old(captures.entries), name, values).Some?
    ensures captures.entries == if ok then Store(old(captures.entries), name, values).value else old(captures.entries)
  {
    var current := Lookup(captures.entries, name);
    if current.None? {
      captures.entries := captures.entries[name := values];
      return true;
    }
    ok := current.value == values;
  }

  method CaptureConcreteTensor(descriptor: TensorDescriptor, tensor: ConcreteTensor, captures: Captures)
    returns (ok: bool)
    modifies captures
    ensures ok == CaptureTensor(descriptor, Payload(tensor), old(captures.entries)).Some?
    ensures ok ==> captures.entries == CaptureTensor(descriptor, Payload(tensor), old(captures.entries)).value
  {
    if descriptor.dtype.Some? && tensor.dtype != descriptor.dtype.value {
      return false;
    }
    var dimensions, strides := Sizes(tensor), StrideList(tensor);
    var permutation;
    if tensor.permutation.None? {
      permutation := Permutations.Iota(|dimensions|);
    } else {
      permutation := tensor.permutation.value;
      if |permutation| != |dimensions| {
        return false;
      }
    }
    ok := StoreCapture(captures, descriptor.dimensionsCapture, Vector(dimensions));
    if !ok { return; }
    ok := StoreCapture(captures, descriptor.stridesCapture, Vector(strides));
    if !ok { return; }
    if descriptor.permutationCapture.Some? {
      ok := StoreCapture(captures, descriptor.permutationCapture.value, Vector(permutation));
    }
  }

  method RouteCaptures(route: Route, tensors: map<string, ConcreteTensor>) returns (captures: Option<Environment>)
    ensures captures == CaptureTensors(route.tensors, Payloads(tensors), map[])
  {
    var table := new Captures();
    var todo := route.tensors;
    while todo != []
      invariant CaptureTensors(todo, Payloads(tensors), table.entries)
             == CaptureTensors(route.tensors, Payloads(tensors), map[])
      decreases |todo|
    {
      if todo[0].role !in tensors {
        return None;
      }
      var ok := CaptureConcreteTensor(todo[0], tensors[todo[0].role], table);
      if !ok {
        return None;
      }
      todo := todo[1..];
    }
    captures := Some(table.entries);
  }

  // One branch of _resolve_values; `lookup` prefers resolved values over captures.
  method ComputeValue(operation: Operation, captures: Environment, resolved: Environment)
    returns (value: Option<Value>)
    ensures value == Compute(operation, captures + resolved)
  {
    ghost var env := captures + resolved;
    match operation {
      case ContiguousStrides(name) =>
        var source := LookupVector(name, captures, resolved);
        if source.None? { return None; }
        var strides := Strides.ContiguousStrides(source.value);
        value := Some(Vector(strides));
      case ProductOf(name) =>
        var source := LookupVector(name, captures, resolved);
        if source.None? { return None; }
        var total := Product(source.value);
        value := Some(Scalar(total));
      case InversePermutation(name) =>
        var source := LookupVector(name, captures, resolved);
        if source.None? { return None; }
        Permutations.SortedIsIotaIffPermutation(source.value);
        if Permutations.Sorted(source.value) != Permutations.Iota(|source.value|) { return None; }
        var inverse := Permutations.InvertInPlace(source.value);
        value := Some(Vector(inverse));
      case Element(name, index) =>
        var source := LookupVector(name, captures, resolved);
        if source.None? || index >= |source.value| { return None; }
        value := Some(Scalar(source.value[index]));
      case Head(name, take) =>
        var source := LookupVector(name, captures, resolved);
        if source.None? { return None; }
        value := Some(Vector(if take < |source.value| then source.value[..take] else source.value));
      case Tail(name, drop) =>
        var source := LookupVector(name, captures, resolved);
        if source.None? { return None; }
        value := Some(Vector(if drop < |source.value| then source.value[drop..] else []));
      case ChainPermutations(firstName, secondName) =>
        var first := LookupVector(firstName, captures, resolved);
        var second := LookupVector(secondName, captures, resolved);
        if first.None? || second.None? { return None; }
        if |first.value| != |second.value| { return None; }
        Permutations.SortedIsIotaIffPermutation(first.value);
        Permutations.SortedIsIotaIffPermutation(second.value);
        if Permutations.Sorted(first.value) != Permutations.Iota(|first.value|) { return None; }
        if Permutations.Sorted(second.value) != Permutations.Iota(|second.value|) { return None; }
        value := Some(Vector(Permutations.Chain(first.value, second.value)));
      case PermutedContiguousStrides(dimensionsName, permutationName) =>
        var dimensions := LookupVector(dimensionsName, captures, resolved);
        var permutation := LookupVector(permutationName, captures, resolved);
        if dimensions.None? || permutation.None? { return None; }
        var strides := Strides.PermutedContiguousStrides(dimensions.value, permutation.value);
        if strides.None? { return None; }
        value := Some(Vector(strides.value));
    }
  }

  method LookupVector(name: string, captures: Environment, resolved: Environment) returns (source: Option<seq<int>>)
    ensures source == VectorOf(captures + resolved, name)
  {
    var found := if name in resolved then Some(resolved[name]) else Lookup(captures, name);
    source := if found.Some? && found.value.Vector? then Some(found.value.v) else None;
  }

  method Product(dimensions: seq<int>) returns (total: int)
    ensures total == Permutations.Product(dimensions)
  {
    total := 1;
    for k := 0 to |dimensions|
      invariant total == Permutations.Product(dimensions[..k])
    {
      Strides.NextProduct(dimensions, k);
      total := total * dimensions[k];
    }
    assert dimensions[..|dimensions|] == dimensions;
  }

  method ResolveValues(definitions: seq<ValueDefinition>, captures: Environment)
    returns (resolved: Option<Environment>)
    ensures resolved.Some? == Resolve(definitions, captures).Some?
    ensures resolved.Some? ==> captures + resolved.value == Resolve(definitions, captures).value
  {
    var table: Environment := map[];
    var todo := definitions;
    assert captures + table == captures;
    while todo != []
      invariant Resolve(todo, captures + table) == Resolve(definitions, captures)
      decreases |todo|
    {
      var value := ComputeValue(todo[0].operation, captures, table);
      if value.None? {
        return None;
      }
      assert captures + table[todo[0].name := value.value] == (captures + table)[todo[0].name := value.value];
      table := table[todo[0].name := value.value];
      todo := todo[1..];
    }
    resolved := Some(table);
  }

  //////////////////////////////////////////////////////////////////////////////
  // Constraints
  //////////////////////////////////////////////////////////////////////////////

  predicate NamesAttribute(name: string) {
    "attribute." <= name
  }

  predicate Below(value: int, bound: Bound) {
    match bound
    case IntBound(n) => value < n
    case FloatBound(r) => value as real < r
  }

  predicate Above(value: int, bound: Bound) {
    match bound
    case IntBound(n) => value > n
    case FloatBound(r) => value as real > r
  }

  function ToVerdict(accepted: bool): Verdict {
    if accepted then Accepted else Rejected
  }

  // A numeric check compares float(value), and tests divisibility of int(float(value)).
  function NumericAccepts(min: Option<Bound>, max: Option<Bound>, multipleOf: Option<int>, value: int): Verdict {
    var number := FloatOf(value);
    if min.Some? && Below(number, min.value) then Rejected
    else if max.Some? && Above(number, max.value) then Rejected
    else if multipleOf.None? then Accepted
    else if multipleOf.value == 0 then DivisionByZero
    else ToVerdict(number % multipleOf.value == 0)
  }

  predicate MissingIsIgnored(env: Environment, name: string, ignoreMissing: bool) {
    name !in env && ignoreMissing && NamesAttribute(name)
  }

  predicate EqualsAccepts(names: seq<string>, env: Environment, ignoreMissing: bool)
    requires names != []
  {
    if names[0] !in env then ignoreMissing && NamesAttribute(names[0])
    else forall i :: 1 <= i < |names| ==>
      || MissingIsIgnored(env, names[i], ignoreMissing)
      || (names[i] in env && env[names[i]] == env[names[0]])
  }

  predicate DividesAccepts(names: seq<string>, env: Environment)
    requires names != []
  {
    var divisors := VectorOf(env, names[0]);
    && divisors.Some?
    && forall i :: 1 <= i < |names| ==>
      VectorOf(env, names[i]).Some? && AllDivide(divisors.value, VectorOf(env, names[i]).value)
  }

  predicate RankAccepts(rank: nat, exact: Option<int>, minimum: Option<int>, maximum: Option<int>) {
    && (exact.Some? ==> rank == exact.value)
    && (minimum.Some? ==> rank >= minimum.value)
    && (maximum.Some? ==> rank <= maximum.value)
  }

  predicate LiteralAccepts(literal: Literal, index: Option<int>, captured: Value) {
    match index
    case None => captured == (match literal case Number(n) => Scalar(n) case Numbers(v) => Vector(v))
    case Some(i) => captured.Vector? && 0 <= i < |captured.v| && literal == Number(captured.v[i])
  }

  // _constraint_accepts: the first populated form in this order decides.
  function CheckAccepts(check: ConstraintCheck, env: Environment, ignoreMissing: bool): Verdict {
    if check.equals != [] then ToVerdict(EqualsAccepts(check.equals, env, ignoreMissing))
    else if check.divides != [] then ToVerdict(DividesAccepts(check.divides, env))
    else if check.name.None? then Rejected
    else if check.name.value !in env then ToVerdict(ignoreMissing && NamesAttribute(check.name.value))
    else
      var captured := env[check.name.value];
      if check.literal.Some? then ToVerdict(LiteralAccepts(check.literal.value, check.index, captured))
      else if check.iota then ToVerdict(captured.Vector? && captured.v == Permutations.Iota(|captured.v|))
      else if check.length.Some? then ToVerdict(captured.Vector? && |captured.v| == check.length.value)
      else if check.rankMin.Some? || check.rankMax.Some? then
        ToVerdict(captured.Vector? && RankAccepts(|captured.v|, None, check.rankMin, check.rankMax))
      else if check.index.Some? then
        if captured.Vector? && 0 <= check.index.value < |captured.v|
        then NumericAccepts(check.min, check.max, check.multipleOf, captured.v[check.index.value])
        else Rejected
      else if captured.Vector? then Rejected
      else NumericAccepts(check.min, check.max, check.multipleOf, captured.n)
  }

  // all(...) stops at the first check that does not accept.
  function ChecksAccept(checks: seq<ConstraintCheck>, env: Environment, ignoreMissing: bool): Verdict {
    if checks == [] then Accepted
    else match CheckAccepts(checks[0], env, ignoreMissing)
      case Accepted => ChecksAccept(checks[1..], env, ignoreMissing)
      case verdict => verdict
  }

  // The environment the checks are evaluated in.
  function RouteValues(route: Route, tensors: map<string, ConcreteTensor>): Option<Environment> {
    match CaptureTensors(route.tensors, Payloads(tensors), map[])
    case None => None
    case Some(captures) => Resolve(route.values, captures)
  }

  function RouteVerdict(route: Route, tensors: map<string, ConcreteTensor>, ignoreMissing: bool): Verdict {
    match RouteValues(route, tensors)
    case None => Rejected
    case Some(env) => ChecksAccept(route.checks, env, ignoreMissing)
  }

  // _python_accepts_tensors; attributes are None (ignoreMissing) or empty.
  method PythonAcceptsTensors(route: Route, tensors: map<string, ConcreteTensor>, ignoreMissing: bool)
    returns (verdict: Verdict)
    ensures verdict == RouteVerdict(route, tensors, ignoreMissing)
  {
    var captures := RouteCaptures(route, tensors);
    if captures.None? {
      return Rejected;
    }
    var resolved := ResolveValues(route.values, captures.value);
    if resolved.None? {
      return Rejected;
    }
    verdict := ChecksAccept(route.checks, captures.value + resolved.value, ignoreMissing);
  }
}
