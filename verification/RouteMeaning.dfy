// What captures, derived values and checks mean, stated entry by entry and independently of how
// they are computed.
module RouteMeaning {
  import opened Wrappers
  import opened RouteModel
  import opened Matching
  import opened Permutations
  import Doubles
  import Strides
  import Int64

  //////////////////////////////////////////////////////////////////////////////
  // Derived values
  //////////////////////////////////////////////////////////////////////////////

  predicate Binds(env: Environment, name: string, v: seq<int>) {
    name in env && env[name] == Vector(v)
  }

  predicate IsVector(value: Option<Value>) {
    value.Some? && value.value.Vector?
  }

  /** Head and tail cut the vector in two: together they are the vector, and the head has the asked
      length, or is all of it. */
  lemma HeadThenTailIsTheVector(env: Environment, name: string, v: seq<int>, k: nat)
    requires Binds(env, name, v)
    ensures IsVector(Compute(Head(name, k), env)) && IsVector(Compute(Tail(name, k), env))
    ensures var head, tail := Compute(Head(name, k), env).value.v, Compute(Tail(name, k), env).value.v;
      head + tail == v && |head| == (if k < |v| then k else |v|)
  {
  }

  /** An element is the entry at its index and is missing exactly past the end. */
  lemma ElementIsTheEntry(env: Environment, name: string, v: seq<int>, i: nat)
    requires Binds(env, name, v)
    ensures Compute(Element(name, i), env) == if i < |v| then Some(Scalar(v[i])) else None
  {
  }

  /** The inverse exists exactly for permutations, and sends p[i] back to i. */
  lemma InverseSendsBack(env: Environment, name: string, p: seq<int>)
    requires Binds(env, name, p)
    ensures Compute(InversePermutation(name), env).Some? <==> IsPermutation(p)
    ensures IsPermutation(p) ==> IsVector(Compute(InversePermutation(name), env))
    ensures IsPermutation(p) ==>
      var q := Compute(InversePermutation(name), env).value.v;
      |q| == |p| && forall i :: 0 <= i < |p| ==> q[p[i]] == i
  {
    if IsPermutation(p) {
      forall i | 0 <= i < |p| ensures Inverse(p)[p[i]] == i {
        InverseAt(p, i);
      }
    }
  }

  /** Chaining looks the entries of the first permutation up in the second, and needs two permutations
      of one length. */
  lemma ChainLooksUpFirstInSecond(env: Environment, a: string, b: string, first: seq<int>, second: seq<int>)
    requires Binds(env, a, first) && Binds(env, b, second)
    ensures Compute(ChainPermutations(a, b), env).Some?
      <==> |first| == |second| && IsPermutation(first) && IsPermutation(second)
    ensures Compute(ChainPermutations(a, b), env).Some? ==> IsVector(Compute(ChainPermutations(a, b), env))
    ensures Compute(ChainPermutations(a, b), env).Some? ==>
      var chained := Compute(ChainPermutations(a, b), env).value.v;
      |chained| == |first| && forall i :: 0 <= i < |first| ==> chained[i] == second[first[i]]
  {
  }

  /** Contiguous strides start at one, and each is the one before times the extent before. */
  lemma StridesMultiplyUp(env: Environment, name: string, dims: seq<int>)
    requires Binds(env, name, dims)
    ensures IsVector(Compute(ContiguousStrides(name), env))
    ensures var strides := Compute(ContiguousStrides(name), env).value.v;
      && |strides| == |dims|
      && (dims != [] ==> strides[0] == 1)
      && forall i :: 0 <= i < |dims| - 1 ==> strides[i + 1] == strides[i] * dims[i]
  {
    forall i | 0 <= i < |dims| - 1
      ensures Permutations.Product(dims[..i + 1]) == Permutations.Product(dims[..i]) * dims[i]
    {
      Strides.NextProduct(dims, i);
    }
  }

  /** Permuted strides start at one on axis p[0], and axis p[i + 1] has the stride of axis p[i] times
      its extent. */
  lemma PermutedStridesMultiplyUp(env: Environment, a: string, b: string, dims: seq<int>, p: seq<int>)
    requires Binds(env, a, dims) && Binds(env, b, p)
    ensures Compute(PermutedContiguousStrides(a, b), env).Some? <==> |dims| == |p| && IsPermutation(p)
    ensures Compute(PermutedContiguousStrides(a, b), env).Some? ==>
      IsVector(Compute(PermutedContiguousStrides(a, b), env))
    ensures Compute(PermutedContiguousStrides(a, b), env).Some? ==>
      var strides := Compute(PermutedContiguousStrides(a, b), env).value.v;
      && |strides| == |p|
      && (p != [] ==> strides[p[0]] == 1)
      && forall i :: 0 <= i < |p| - 1 ==> strides[p[i + 1]] == strides[p[i]] * dims[p[i]]
  {
    if |dims| == |p| && IsPermutation(p) {
      var base := Select(dims, p);
      forall i | 0 <= i < |p| ensures Strides.PermutedStrides(dims, p)[p[i]] == Permutations.Product(base[..i]) {
        PermutationIsOnto(p, p[i]);
        assert IndexOf(p, p[i]) == i;
      }
      forall i | 0 <= i < |p| - 1
        ensures Permutations.Product(base[..i + 1]) == Permutations.Product(base[..i]) * dims[p[i]]
      {
        Strides.NextProduct(base, i);
      }
    }
  }

  /** The product of no extents is one, and one more extent multiplies it. */
  lemma ProductMultipliesUp(env: Environment, name: string, dims: seq<int>, last: int)
    ensures Compute(ProductOf(name), env[name := Vector([])]) == Some(Scalar(1))
    ensures Compute(ProductOf(name), env[name := Vector(dims)]).Some?
    ensures Compute(ProductOf(name), env[name := Vector(dims)]).value.Scalar?
    ensures var product := Compute(ProductOf(name), env[name := Vector(dims)]).value.n;
      Compute(ProductOf(name), env[name := Vector(dims + [last])]) == Some(Scalar(product * last))
  {
    Strides.FoldsOfAppend(dims, last);
  }

  // The names an operation reads.
  function Sources(operation: Operation): set<string> {
    match operation
    case ChainPermutations(first, second) => {first, second}
    case PermutedContiguousStrides(dimensions, permutation) => {dimensions, permutation}
    case _ => {operation.source}
  }

  /** An operation without all its vectors denotes nothing. */
  lemma OperandsMustBeVectors(operation: Operation, env: Environment, name: string)
    requires name in Sources(operation) && (name !in env || env[name].Scalar?)
    ensures Compute(operation, env).None?
  {
  }

  /** Values are derived in order, later ones from earlier ones, and a name derived again is replaced. */
  lemma {:induction false} ValuesAreDerivedInOrder(definitions: seq<ValueDefinition>, last: ValueDefinition,
      env: Environment)
    ensures var before := Resolve(definitions, env);
      Resolve(definitions + [last], env)
      == if before.Some? && Compute(last.operation, before.value).Some?
         then Some(before.value[last.name := Compute(last.operation, before.value).value]) else None
  {
    if definitions == [] {
      assert [last][1..] == [] && definitions + [last] == [last];
    } else {
      assert (definitions + [last])[1..] == definitions[1..] + [last];
      var value := Compute(definitions[0].operation, env);
      if value.Some? {
        ValuesAreDerivedInOrder(definitions[1..], last, env[definitions[0].name := value.value]);
      }
    }
  }

  //////////////////////////////////////////////////////////////////////////////
  // Captures
  //////////////////////////////////////////////////////////////////////////////

  type Claim = (string, Value)

  // What a tensor has captured under which name.
  function Claims(descriptor: TensorDescriptor, tensor: Tensor): seq<Claim> {
    [(descriptor.dimensionsCapture, Vector(tensor.dimensions)), (descriptor.stridesCapture, Vector(tensor.strides))]
    + if descriptor.permutationCapture.Some? then [(descriptor.permutationCapture.value, Vector(PermutationOf(tensor)))]
      else []
  }

  function AllClaims(descriptors: seq<TensorDescriptor>, tensors: map<string, Tensor>): seq<Claim>
    requires forall d :: d in descriptors ==> d.role in tensors
  {
    if descriptors == [] then []
    else
      assert descriptors[0] in descriptors;
      Claims(descriptors[0], tensors[descriptors[0].role]) + AllClaims(descriptors[1..], tensors)
  }

  function StoreAll(claims: seq<Claim>, env: Environment): Option<Environment> {
    if claims == [] then Some(env)
    else match Store(env, claims[0].0, claims[0].1)
      case None => None
      case Some(next) => StoreAll(claims[1..], next)
  }

  lemma {:induction false} StoreInParts(a: seq<Claim>, b: seq<Claim>, env: Environment)
    ensures StoreAll(a + b, env) == match StoreAll(a, env) case None => None case Some(next) => StoreAll(b, next)
  {
    if a == [] {
      assert a + b == b;
    } else {
      assert (a + b)[1..] == a[1..] + b;
      var next := Store(env, a[0].0, a[0].1);
      if next.Some? {
        StoreInParts(a[1..], b, next.value);
      }
    }
  }

  lemma TensorStoresItsClaims(descriptor: TensorDescriptor, tensor: Tensor, env: Environment)
    ensures CaptureTensor(descriptor, tensor, env)
      == if TensorFitsDescriptor(descriptor, tensor) then StoreAll(Claims(descriptor, tensor), env) else None
  {
    var dimensions := (descriptor.dimensionsCapture, Vector(tensor.dimensions));
    var strides := (descriptor.stridesCapture, Vector(tensor.strides));
    StoreOneAfter([], dimensions, env);
    assert [] + [dimensions] == [dimensions];
    StoreOneAfter([dimensions], strides, env);
    assert [dimensions] + [strides] == [dimensions, strides];
    if descriptor.permutationCapture.Some? {
      var permutation := (descriptor.permutationCapture.value, Vector(PermutationOf(tensor)));
      StoreOneAfter([dimensions, strides], permutation, env);
      assert Claims(descriptor, tensor) == [dimensions, strides] + [permutation];
    } else {
      assert Claims(descriptor, tensor) == [dimensions, strides];
    }
  }

  lemma StoreOneAfter(claims: seq<Claim>, claim: Claim, env: Environment)
    ensures StoreAll(claims + [claim], env)
      == match StoreAll(claims, env) case None => None case Some(next) => Store(next, claim.0, claim.1)
  {
    StoreInParts(claims, [claim], env);
    assert [claim][1..] == [];
  }

  // Every role is there, with the dtype asked for, one stride per extent, and a permutation, if any, of
  // that length.
  predicate AllFit(descriptors: seq<TensorDescriptor>, tensors: map<string, Tensor>) {
    forall d :: d in descriptors ==>
      && d.role in tensors
      && (d.dtype.Some? ==> tensors[d.role].dtype == d.dtype.value)
      && |tensors[d.role].strides| == |tensors[d.role].dimensions|
      && (tensors[d.role].permutation.Some? ==>
            |tensors[d.role].permutation.value| == |tensors[d.role].dimensions|)
  }

  lemma {:induction false} TensorsStoreTheirClaims(descriptors: seq<TensorDescriptor>, tensors: map<string, Tensor>,
      env: Environment)
    ensures CaptureTensors(descriptors, tensors, env).Some? ==> AllFit(descriptors, tensors)
    ensures AllFit(descriptors, tensors) ==>
      CaptureTensors(descriptors, tensors, env) == StoreAll(AllClaims(descriptors, tensors), env)
  {
    if descriptors != [] {
      var d := descriptors[0];
      assert d in descriptors && descriptors == [d] + descriptors[1..];
      if d.role in tensors {
        TensorStoresItsClaims(d, tensors[d.role], env);
        var next := CaptureTensor(d, tensors[d.role], env);
        if next.Some? {
          TensorsStoreTheirClaims(descriptors[1..], tensors, next.value);
        }
        if AllFit(descriptors, tensors) {
          StoreInParts(Claims(d, tensors[d.role]), AllClaims(descriptors[1..], tensors), env);
        }
      }
    }
  }

  // No name is claimed for two values, nor for another value than it has.
  predicate Compatible(claims: seq<Claim>, env: Environment) {
    && (forall c, d :: c in claims && d in claims && c.0 == d.0 ==> c.1 == d.1)
    && (forall c :: c in claims && c.0 in env ==> env[c.0] == c.1)
  }

  // What storing leaves: what was there and what was claimed, and nothing else.
  ghost predicate HoldsExactly(result: Environment, claims: seq<Claim>, env: Environment) {
    && (forall c :: c in claims ==> c.0 in result && result[c.0] == c.1)
    && (forall name :: name in env ==> name in result && result[name] == env[name])
    && (forall name :: name in result ==> name in env || (name, result[name]) in claims)
  }

  lemma {:induction false} StoringSucceedsIff(claims: seq<Claim>, env: Environment)
    ensures StoreAll(claims, env).Some? <==> Compatible(claims, env)
    ensures StoreAll(claims, env).Some? ==> HoldsExactly(StoreAll(claims, env).value, claims, env)
    decreases |claims|
  {
    if claims != [] {
      var first, rest := claims[0], claims[1..];
      assert claims == [first] + rest && first in claims;
      var next := Store(env, first.0, first.1);
      if next.Some? {
        StoringSucceedsIff(rest, next.value);
        CompatibleStep(first, rest, env, next.value);
        if StoreAll(rest, next.value).Some? {
          HoldsStep(StoreAll(rest, next.value).value, first, rest, env, next.value);
        }
      } else {
        assert !Compatible(claims, env);
      }
    }
  }

  lemma HoldsStep(result: Environment, first: Claim, rest: seq<Claim>, env: Environment, next: Environment)
    requires Store(env, first.0, first.1) == Some(next) && HoldsExactly(result, rest, next)
    ensures HoldsExactly(result, [first] + rest, env)
  {
    var claims := [first] + rest;
    assert forall c :: c in claims <==> c == first || c in rest;
    assert next == env[first.0 := first.1];
    assert first == (first.0, first.1) && first in claims;
    forall name | name in result ensures name in env || (name, result[name]) in claims {
      if name !in env && name == first.0 {
        assert result[name] == next[name] == first.1;
      }
    }
  }

  lemma CompatibleStep(first: Claim, rest: seq<Claim>, env: Environment, next: Environment)
    requires Store(env, first.0, first.1) == Some(next)
    ensures Compatible([first] + rest, env) <==> Compatible(rest, next)
  {
    var claims := [first] + rest;
    assert first in claims && forall c :: c in claims <==> c == first || c in rest;
    assert next == env[first.0 := first.1];
    if Compatible(claims, env) {
      forall c | c in rest && c.0 in next ensures next[c.0] == c.1 {
        assert c in claims;
      }
    }
    if Compatible(rest, next) {
      forall c, d | c in claims && d in claims && c.0 == d.0 ensures c.1 == d.1 {
        assert c.0 in next ==> (c in rest ==> next[c.0] == c.1) && (d in rest ==> next[d.0] == d.1);
      }
    }
  }

  /** Captures succeed, in whatever order, exactly when every role is there and fits its descriptor and no
      name is claimed for two values. */
  lemma CapturesSucceedIff(descriptors: seq<TensorDescriptor>, tensors: map<string, Tensor>)
    ensures CaptureTensors(descriptors, tensors, map[]).Some? <==>
      AllFit(descriptors, tensors) && Compatible(AllClaims(descriptors, tensors), map[])
  {
    TensorsStoreTheirClaims(descriptors, tensors, map[]);
    if AllFit(descriptors, tensors) {
      StoringSucceedsIff(AllClaims(descriptors, tensors), map[]);
    }
  }

  lemma {:induction false} ClaimsOf(descriptors: seq<TensorDescriptor>, tensors: map<string, Tensor>, k: nat)
    requires (forall d :: d in descriptors ==> d.role in tensors) && k < |descriptors|
    ensures forall c :: c in Claims(descriptors[k], tensors[descriptors[k].role]) ==>
      c in AllClaims(descriptors, tensors)
  {
    assert descriptors[0] in descriptors;
    if k > 0 {
      ClaimsOf(descriptors[1..], tensors, k - 1);
    }
  }

  // Python's captures of one tensor: extents, strides, and the permutation or, without one, the identity.
  predicate HoldsTensor(env: Environment, descriptor: TensorDescriptor, tensor: ConcreteTensor) {
    && VectorOf(env, descriptor.dimensionsCapture).Some? && VectorOf(env, descriptor.stridesCapture).Some?
    && (var extents, strides :=
          VectorOf(env, descriptor.dimensionsCapture).value, VectorOf(env, descriptor.stridesCapture).value;
        && |extents| == |strides| == |tensor.dimensions|
        && forall i :: 0 <= i < |tensor.dimensions| ==>
          extents[i] == tensor.dimensions[i].size && strides[i] == tensor.dimensions[i].stride)
    && (descriptor.permutationCapture.Some? ==>
          && VectorOf(env, descriptor.permutationCapture.value).Some?
          && var permutation := VectorOf(env, descriptor.permutationCapture.value).value;
             if tensor.permutation.Some? then permutation == tensor.permutation.value
             else |permutation| == |tensor.dimensions| && forall i :: 0 <= i < |permutation| ==> permutation[i] == i)
  }

  /** Captures hold exactly the extents, strides and permutation of every tensor of the route, under the names its
      descriptor gives them, of the dtype it asks for. */
  lemma CapturesHoldTheTensors(descriptors: seq<TensorDescriptor>, tensors: map<string, ConcreteTensor>, k: nat)
    requires CaptureTensors(descriptors, Payloads(tensors), map[]).Some? && k < |descriptors|
    ensures descriptors[k].role in tensors
    ensures var tensor := tensors[descriptors[k].role];
      && HoldsTensor(CaptureTensors(descriptors, Payloads(tensors), map[]).value, descriptors[k], tensor)
      && (descriptors[k].dtype.Some? ==> descriptors[k].dtype.value == tensor.dtype)
      && (tensor.permutation.Some? ==> |tensor.permutation.value| == |tensor.dimensions|)
  {
    var payloads := Payloads(tensors);
    TensorsStoreTheirClaims(descriptors, payloads, map[]);
    StoringSucceedsIff(AllClaims(descriptors, payloads), map[]);
    assert descriptors[k] in descriptors;
    ClaimsOf(descriptors, payloads, k);
    ClaimsAreHeld(descriptors[k], tensors[descriptors[k].role],
      CaptureTensors(descriptors, payloads, map[]).value);
  }

  lemma ClaimsAreHeld(descriptor: TensorDescriptor, tensor: ConcreteTensor, env: Environment)
    requires forall c :: c in Claims(descriptor, Payload(tensor)) ==> c.0 in env && env[c.0] == c.1
    requires TensorFitsDescriptor(descriptor, Payload(tensor))
    ensures HoldsTensor(env, descriptor, tensor)
  {
    var claims := Claims(descriptor, Payload(tensor));
    assert claims[0] in claims && claims[1] in claims;
    assert descriptor.permutationCapture.Some? ==> claims[2] in claims;
  }

  //////////////////////////////////////////////////////////////////////////////
  // Checks
  //////////////////////////////////////////////////////////////////////////////

  // A check with nothing in it but its name.
  function Named(name: string): ConstraintCheck {
    ConstraintCheck(Some(name), None, None, None, None, None, None, None, false, [], [], None)
  }

  const EMPTY := ConstraintCheck(None, None, None, None, None, None, None, None, false, [], [], None)

  /** Rank bounds are inclusive and need a vector. */
  lemma RankChecksMean(env: Environment, name: string, low: int, high: int, ignoreMissing: bool)
    requires name in env
    ensures CheckAccepts(Named(name).(rankMin := Some(low)), env, ignoreMissing) == Accepted
      <==> env[name].Vector? && |env[name].v| >= low
    ensures CheckAccepts(Named(name).(rankMax := Some(high)), env, ignoreMissing) == Accepted
      <==> env[name].Vector? && |env[name].v| <= high
    ensures CheckAccepts(Named(name).(rankMin := Some(low), rankMax := Some(high)), env, ignoreMissing) == Accepted
      <==> env[name].Vector? && low <= |env[name].v| <= high
    ensures CheckAccepts(Named(name).(length := Some(low)), env, ignoreMissing) == Accepted
      <==> env[name].Vector? && |env[name].v| == low
  {
  }

  /** Iota accepts exactly the vectors that count up from zero. */
  lemma IotaChecksMean(env: Environment, name: string, ignoreMissing: bool)
    requires name in env
    ensures CheckAccepts(Named(name).(iota := true), env, ignoreMissing) == Accepted
      <==> env[name].Vector? && forall i :: 0 <= i < |env[name].v| ==> env[name].v[i] == i
  {
  }

  ghost predicate IsMultiple(n: int, divisor: int) {
    exists k: int :: n == Times(k, divisor)
  }

  function Times(k: int, divisor: int): int {
    k * divisor
  }

  lemma MultipleIff(n: int, divisor: int)
    requires divisor != 0
    ensures n % divisor == 0 <==> IsMultiple(n, divisor)
  {
    if n % divisor == 0 {
      assert n == Times(n / divisor, divisor);
    }
    if IsMultiple(n, divisor) {
      var k :| n == Times(k, divisor);
      Int64.MultipleMod(divisor, k);
    }
  }

  // What a numeric check reads: the scalar itself, or the entry at its index.
  predicate Reads(env: Environment, name: string, index: Option<nat>, n: int) {
    name in env &&
    match index
    case None => env[name] == Scalar(n)
    case Some(i) => env[name].Vector? && i < |env[name].v| && env[name].v[i] == n
  }

  function Numeric(name: string, index: Option<nat>): ConstraintCheck {
    Named(name).(index := if index.Some? then Some(index.value) else None)
  }

  /** Numeric checks on a number that survives float(): inclusive bounds and exact multiples. */
  lemma NumericChecksMean(env: Environment, name: string, index: Option<nat>, n: int, low: int, high: int, divisor: int,
      ignoreMissing: bool)
    requires Reads(env, name, index, n) && Doubles.Representable(n) && divisor != 0
    ensures CheckAccepts(Numeric(name, index).(min := Some(IntBound(low))), env, ignoreMissing) == Accepted
         <==> low <= n
    ensures CheckAccepts(Numeric(name, index).(max := Some(IntBound(high))), env, ignoreMissing) == Accepted
         <==> n <= high
    ensures CheckAccepts(Numeric(name, index).(multipleOf := Some(divisor)), env, ignoreMissing) == Accepted
      <==> IsMultiple(n, divisor)
    ensures CheckAccepts(Numeric(name, index).(min := Some(IntBound(low)), max := Some(IntBound(high)),
        multipleOf := Some(divisor)), env, ignoreMissing) == Accepted
      <==> low <= n <= high && IsMultiple(n, divisor)
  {
    Doubles.FloatIsExactWhenRepresentable(n);
    MultipleIff(n, divisor);
  }

  /** A numeric check that reads no number rejects: an index past the end or into a scalar, or no index into a
      vector. */
  lemma NumericChecksNeedANumber(env: Environment, name: string, index: Option<nat>, check: ConstraintCheck,
      ignoreMissing: bool)
    requires name in env && if index.None? then env[name].Vector? else env[name].Scalar? || index.value >= |env[name].v|
    requires check == Numeric(name, index).(min := check.min, max := check.max, multipleOf := check.multipleOf)
    ensures CheckAccepts(check, env, ignoreMissing) == Rejected
  {
  }

  ghost predicate BoundTo(env: Environment, names: seq<string>, value: Value) {
    forall i :: 0 <= i < |names| ==> names[i] in env && env[names[i]] == value
  }

  /** An equals check accepts exactly when one value is bound to all its names. */
  lemma EqualsChecksMean(env: Environment, names: seq<string>)
    requires names != []
    ensures CheckAccepts(EMPTY.(equals := names), env, false) == Accepted
         <==> exists value :: BoundTo(env, names, value)
  {
    if CheckAccepts(EMPTY.(equals := names), env, false) == Accepted {
      assert BoundTo(env, names, env[names[0]]);
    }
  }

  // Every entry is a multiple of the positive divisor at its place.
  ghost predicate MultiplesOf(divisors: seq<int>, values: seq<int>) {
    |values| == |divisors| && forall i :: 0 <= i < |divisors| ==> divisors[i] > 0 && IsMultiple(values[i], divisors[i])
  }

  /** A divides check accepts exactly when all its names are vectors and all further ones are elementwise multiples
      of the first, whose entries are positive. */
  lemma DividesChecksMean(env: Environment, names: seq<string>, ignoreMissing: bool)
    requires |names| >= 2
    ensures CheckAccepts(EMPTY.(divides := names), env, ignoreMissing) == Accepted <==>
      && (forall i :: 0 <= i < |names| ==> VectorOf(env, names[i]).Some?)
      && (forall i :: 1 <= i < |names| ==>
           MultiplesOf(VectorOf(env, names[0]).value, VectorOf(env, names[i]).value))
  {
    forall divisors, values ensures AllDivide(divisors, values) <==> MultiplesOf(divisors, values) {
      forall i | 0 <= i < |divisors| && i < |values| && divisors[i] > 0
        ensures values[i] % divisors[i] == 0 <==> IsMultiple(values[i], divisors[i])
      {
        MultipleIff(values[i], divisors[i]);
      }
    }
  }

  /** A literal check compares the whole capture, or the entry at its index. */
  lemma LiteralChecksMean(env: Environment, name: string, n: int, v: seq<int>, i: nat, ignoreMissing: bool)
    requires name in env
    ensures CheckAccepts(Named(name).(literal := Some(Number(n))), env, ignoreMissing) == Accepted
      <==> env[name] == Scalar(n)
    ensures CheckAccepts(Named(name).(literal := Some(Numbers(v))), env, ignoreMissing) == Accepted
      <==> env[name] == Vector(v)
    ensures CheckAccepts(Named(name).(literal := Some(Number(n)), index := Some(i)), env, ignoreMissing) == Accepted
      <==> env[name].Vector? && i < |env[name].v| && env[name].v[i] == n
  {
  }

  /** A check on a name nothing is bound to rejects, unless the name is an attribute's and those may be
      missing. */
  lemma MissingNamesReject(env: Environment, check: ConstraintCheck, ignoreMissing: bool)
    requires check.equals == [] && check.divides == [] && check.name.Some? && check.name.value !in env
    ensures CheckAccepts(check, env, ignoreMissing)
      == if ignoreMissing && NamesAttribute(check.name.value) then Accepted else Rejected
  {
  }

  /** Attribute names are those with the prefix "attribute.". */
  lemma AttributeNames(rest: string)
    ensures NamesAttribute("attribute." + rest) && !NamesAttribute("dst_dimensions") && !NamesAttribute("attribute")
  {
    var name := "dst_dimensions";
    assert name[0] == 'd';
  }

  /** A list of checks accepts exactly when each one does. */
  lemma {:induction false} AllChecksMustAccept(checks: seq<ConstraintCheck>, env: Environment, ignoreMissing: bool)
    ensures ChecksAccept(checks, env, ignoreMissing) == Accepted
      <==> forall check :: check in checks ==> CheckAccepts(check, env, ignoreMissing) == Accepted
  {
    if checks != [] {
      assert checks == [checks[0]] + checks[1..];
      AllChecksMustAccept(checks[1..], env, ignoreMissing);
    }
  }

  //////////////////////////////////////////////////////////////////////////////
  // What fits in 64 bits
  //////////////////////////////////////////////////////////////////////////////

  /** Native can derive strides exactly when every stride fits, a product exactly when every prefix
      fits, and all other values always. */
  lemma DerivableIff(operation: Operation, env: Environment)
    requires Compute(operation, env).Some?
    ensures operation.ContiguousStrides? || operation.PermutedContiguousStrides? ==>
      IsVector(Compute(operation, env))
    ensures operation.ContiguousStrides? || operation.PermutedContiguousStrides? ==>
      var strides := Compute(operation, env).value.v;
      ProductsFit(operation, env) <==> forall k :: 0 <= k < |strides| ==> Int64.InInt64(strides[k])
    ensures operation.ProductOf? ==>
      var dims := VectorOf(env, operation.source).value;
      ProductsFit(operation, env) <==> forall k :: 0 <= k <= |dims| ==> Int64.InInt64(Permutations.Product(dims[..k]))
    ensures !operation.ContiguousStrides? && !operation.PermutedContiguousStrides? && !operation.ProductOf? ==>
      ProductsFit(operation, env)
  {
    match operation
    case ContiguousStrides(source) => Strides.StridesSucceedIffTheyFit(VectorOf(env, source).value);
    case PermutedContiguousStrides(dimensions, permutation) =>
      PermutedStridesFitIff(VectorOf(env, dimensions).value, VectorOf(env, permutation).value);
    case _ =>
  }

  lemma PermutedStridesFitIff(dims: seq<int>, p: seq<int>)
    requires IsPermutation(p) && |dims| == |p|
    ensures var strides := Strides.PermutedStrides(dims, p);
      Strides.RunningProductsFit(Select(dims, p), |p| - 1)
      <==> forall k :: 0 <= k < |strides| ==> Int64.InInt64(strides[k])
  {
    var base, strides := Strides.Strides(Select(dims, p)), Strides.PermutedStrides(dims, p);
    Strides.StridesSucceedIffTheyFit(Select(dims, p));
    forall i | 0 <= i < |p| ensures strides[p[i]] == base[i] {
      PermutationIsOnto(p, p[i]);
      assert IndexOf(p, p[i]) == i;
    }
    if forall k :: 0 <= k < |strides| ==> Int64.InInt64(strides[k]) {
      forall i | 0 <= i < |p| ensures Int64.InInt64(base[i]) {
        assert Int64.InInt64(strides[p[i]]);
      }
    }
    if forall i :: 0 <= i < |p| ==> Int64.InInt64(base[i]) {
      forall k | 0 <= k < |p| ensures Int64.InInt64(strides[k]) {
        PermutationIsOnto(p, k);
        assert strides[p[IndexOf(p, k)]] == base[IndexOf(p, k)];
      }
    }
  }
}
