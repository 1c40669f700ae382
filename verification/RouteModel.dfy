// Routes and tensors, and what both evaluators read out of them: named captures and the
// values derived from the captures.
module RouteModel {
  import opened Wrappers
  import opened Int64
  import Permutations
  import Strides

  datatype Value = Scalar(n: int) | Vector(v: seq<int>)

  type Environment = map<string, Value>

  // The dictionary of captures both implementations update in place.
  class Captures {
    var entries: Environment

    constructor ()
      ensures entries == map[]
    {
      entries := map[];
    }
  }

  datatype TensorDescriptor = TensorDescriptor(
    role: string,
    dtype: Option<string>,
    dimensionsCapture: string,
    stridesCapture: string,
    permutationCapture: Option<string>)

  // A tensor as it crosses from Python to the native selector; dtype tokens are normalized.
  datatype Tensor = Tensor(
    dtype: string,
    dimensions: seq<int>,
    strides: seq<int>,
    permutation: Option<seq<int>>)

  // The computations a route can define, each with the sources and parameter its kind requires.
  datatype Operation =
    | ContiguousStrides(source: string)
    | ProductOf(source: string)
    | InversePermutation(source: string)
    | Element(source: string, index: nat)
    | Head(source: string, take: nat)
    | Tail(source: string, drop: nat)
    | ChainPermutations(first: string, second: string)
    | PermutedContiguousStrides(dimensions: string, permutation: string)

  datatype ValueDefinition = ValueDefinition(name: string, operation: Operation)

  // A route's tensors are a dictionary: every role occurs once.
  predicate DistinctRoles(descriptors: seq<TensorDescriptor>) {
    forall i, j :: 0 <= i < j < |descriptors| ==> descriptors[i].role != descriptors[j].role
  }

  function Roles(descriptors: seq<TensorDescriptor>): set<string> {
    set descriptor | descriptor in descriptors :: descriptor.role
  }

  //////////////////////////////////////////////////////////////////////////////
  // Captures
  //////////////////////////////////////////////////////////////////////////////

  function Lookup(env: Environment, name: string): Option<Value> {
    if name in env then Some(env[name]) else None
  }

  // A name captured twice must be captured with the same value.
  function Store(env: Environment, name: string, value: Value): Option<Environment> {
    if name !in env then Some(env[name := value])
    else if env[name] == value then Some(env)
    else None
  }

  function PermutationOf(tensor: Tensor): seq<int> {
    if tensor.permutation.Some? then tensor.permutation.value
    else Permutations.Iota(|tensor.dimensions|)
  }

  predicate TensorFitsDescriptor(descriptor: TensorDescriptor, tensor: Tensor) {
    && (descriptor.dtype.None? || descriptor.dtype.value == tensor.dtype)
    && |tensor.dimensions| == |tensor.strides|
    && |PermutationOf(tensor)| == |tensor.dimensions|
  }

  function CaptureTensor(descriptor: TensorDescriptor, tensor: Tensor, env: Environment): Option<Environment> {
    if !TensorFitsDescriptor(descriptor, tensor) then None
    else match Store(env, descriptor.dimensionsCapture, Vector(tensor.dimensions))
      case None => None
      case Some(env1) => match Store(env1, descriptor.stridesCapture, Vector(tensor.strides))
        case None => None
        case Some(env2) =>
          if descriptor.permutationCapture.None? then Some(env2)
          else Store(env2, descriptor.permutationCapture.value, Vector(PermutationOf(tensor)))
  }

  function CaptureTensors(descriptors: seq<TensorDescriptor>, tensors: map<string, Tensor>, env: Environment)
    : Option<Environment>
  {
    if descriptors == [] then Some(env)
    else if descriptors[0].role !in tensors then None
    else match CaptureTensor(descriptors[0], tensors[descriptors[0].role], env)
      case None => None
      case Some(env1) => CaptureTensors(descriptors[1..], tensors, env1)
  }

  //////////////////////////////////////////////////////////////////////////////
  // Derived values
  //////////////////////////////////////////////////////////////////////////////

  function VectorOf(env: Environment, name: string): Option<seq<int>> {
    if name in env && env[name].Vector? then Some(env[name].v) else None
  }

  function ComputeOne(operation: Operation, source: seq<int>): Option<Value>
    requires !operation.ChainPermutations? && !operation.PermutedContiguousStrides?
  {
    match operation
    case ContiguousStrides(_) => Some(Vector(Strides.Strides(source)))
    case ProductOf(_) => Some(Scalar(Permutations.Product(source)))
    case InversePermutation(_) =>
      if Permutations.IsPermutation(source) then Some(Vector(Permutations.Inverse(source))) else None
    case Element(_, index) => if index < |source| then Some(Scalar(source[index])) else None
    case Head(_, take) => Some(Vector(if take < |source| then source[..take] else source))
    case Tail(_, drop) => Some(Vector(if drop < |source| then source[drop..] else []))
  }

  function ComputeTwo(operation: Operation, a: seq<int>, b: seq<int>): Option<Value>
    requires operation.ChainPermutations? || operation.PermutedContiguousStrides?
  {
    if |a| != |b| || !Permutations.IsPermutation(b) then None
    else match operation
      case ChainPermutations(_, _) =>
        if Permutations.IsPermutation(a) then Some(Vector(Permutations.Chain(a, b))) else None
      case PermutedContiguousStrides(_, _) => Some(Vector(Strides.PermutedStrides(a, b)))
  }

  // The value an operation denotes over unbounded integers; None rejects the route.
  function Compute(operation: Operation, env: Environment): Option<Value> {
    if operation.ChainPermutations? || operation.PermutedContiguousStrides? then
      var first := if operation.ChainPermutations? then operation.first else operation.dimensions;
      var second := if operation.ChainPermutations? then operation.second else operation.permutation;
      match (VectorOf(env, first), VectorOf(env, second))
      case (Some(a), Some(b)) => ComputeTwo(operation, a, b)
      case _ => None
    else
      match VectorOf(env, operation.source)
      case Some(s) => ComputeOne(operation, s)
      case None => None
  }

  function Resolve(definitions: seq<ValueDefinition>, env: Environment): Option<Environment> {
    if definitions == [] then Some(env)
    else match Compute(definitions[0].operation, env)
      case None => None
      case Some(value) => Resolve(definitions[1..], env[definitions[0].name := value])
  }

  // Every divisor is positive and divides the value at its position.
  predicate AllDivide(divisors: seq<int>, values: seq<int>) {
    && |values| == |divisors|
    && forall i :: 0 <= i < |divisors| ==> divisors[i] > 0 && values[i] % divisors[i] == 0
  }

  //////////////////////////////////////////////////////////////////////////////
  // The 64-bit range
  //////////////////////////////////////////////////////////////////////////////

  ghost predicate IsVec(v: seq<int>) {
    |v| <= INT64_MAX && forall i :: 0 <= i < |v| ==> InInt64(v[i])
  }

  ghost predicate ValueFits(value: Value) {
    match value
    case Scalar(n) => InInt64(n)
    case Vector(v) => IsVec(v)
  }

  ghost predicate EnvironmentFits(env: Environment) {
    forall name :: name in env ==> ValueFits(env[name])
  }

  ghost predicate TensorFits(tensor: Tensor) {
    && IsVec(tensor.dimensions)
    && IsVec(tensor.strides)
    && (tensor.permutation.Some? ==> IsVec(tensor.permutation.value))
  }

  // Whether every running product the operation forms stays in 64 bits.
  ghost predicate ProductsFit(operation: Operation, env: Environment)
    requires Compute(operation, env).Some?
  {
    match operation
    case ContiguousStrides(source) =>
      var dims := VectorOf(env, source).value;
      Strides.RunningProductsFit(dims, |dims| - 1)
    case ProductOf(source) =>
      var dims := VectorOf(env, source).value;
      Strides.RunningProductsFit(dims, |dims|)
    case PermutedContiguousStrides(dimensions, permutation) =>
      var p := VectorOf(env, permutation).value;
      Strides.RunningProductsFit(Permutations.Select(VectorOf(env, dimensions).value, p), |p| - 1)
    case _ => true
  }

  lemma StridesFit(dims: seq<int>)
    requires IsVec(dims) && Strides.RunningProductsFit(dims, |dims| - 1)
    ensures IsVec(Strides.Strides(dims))
  {
  }

  // Values computed without overflow fit in 64 bits whenever their operands do.
  lemma ComputedValueFits(operation: Operation, env: Environment)
    requires EnvironmentFits(env) && Compute(operation, env).Some? && ProductsFit(operation, env)
    ensures ValueFits(Compute(operation, env).value)
  {
    match operation
    case ContiguousStrides(source) => StridesFit(VectorOf(env, source).value);
    case ProductOf(source) =>
      var dims := VectorOf(env, source).value;
      assert dims[..|dims|] == dims;
    case InversePermutation(source) =>
      var p := VectorOf(env, source).value;
      forall v | 0 <= v < |p| ensures InInt64(Permutations.Inverse(p)[v]) {
        Permutations.PermutationIsOnto(p, v);
      }
    case PermutedContiguousStrides(dimensions, permutation) =>
      var dims, p := VectorOf(env, dimensions).value, VectorOf(env, permutation).value;
      var base := Permutations.Select(dims, p);
      StridesFit(base);
      forall v | 0 <= v < |p| ensures InInt64(Strides.PermutedStrides(dims, p)[v]) {
        Permutations.PermutationIsOnto(p, v);
      }
    case _ =>
  }
}
