// Native selection against Python's select_route_query, over whole operation tables: tables with
// attribute-declaring routes, dropped attribute checks and zero divisors included.
module SelectionParity {
  import opened Wrappers
  import opened RouteModel
  import opened Matching
  import opened NativeSelector
  import opened Lowering
  import opened Catalog
  import opened Parity

  datatype PythonSelection = Matched(routeId: string) | Unmatched | Raised

  // A query without attributes reaches a route's tensors only under the route's exact roles and only
  // if the route declares no attributes.
  predicate Considered(route: Route, tensors: map<string, ConcreteTensor>) {
    Roles(route.tensors) == tensors.Keys && route.attributes == {}
  }

  // select_route_query on a query without attributes, for routes without synthetic tensors.
  function PythonSelect(routes: seq<Route>, tensors: map<string, ConcreteTensor>): PythonSelection {
    if routes == [] then Unmatched
    else if !Considered(routes[0], tensors) then PythonSelect(routes[1..], tensors)
    else match RouteVerdict(routes[0], tensors, false)
      case Accepted => Matched(routes[0].id)
      case Rejected => PythonSelect(routes[1..], tensors)
      case DivisionByZero => Raised
  }

  function RenderRoutes(routes: seq<Route>): Option<seq<RouteDescriptor>> {
    if routes == [] then Some([])
    else match (RenderRoute(routes[0]), RenderRoutes(routes[1..]))
      case (Some(first), Some(rest)) => Some([first] + rest)
      case _ => None
  }

  // The table is one the generator produces, and the numbers its checks read survive float().
  predicate ComparableTable(routes: seq<Route>, tensors: map<string, ConcreteTensor>) {
    && RenderRoutes(routes).Some?
    && (forall route :: route in routes ==> Comparable(route, tensors))
    && (forall i, j :: 0 <= i < j < |routes| ==> routes[i].id != routes[j].id)
  }

  predicate Comparable(route: Route, tensors: map<string, ConcreteTensor>) {
    Lowerable(route) && (tensors.Keys == Roles(route.tensors) ==> ReadsExactNumbers(route, tensors))
  }

  lemma TableTail(routes: seq<Route>, tensors: map<string, ConcreteTensor>)
    requires ComparableTable(routes, tensors) && routes != []
    ensures RenderRoute(routes[0]).Some? && Comparable(routes[0], tensors)
    ensures ComparableTable(routes[1..], tensors)
    ensures RenderRoutes(routes).value == [RenderRoute(routes[0]).value] + RenderRoutes(routes[1..]).value
  {
    assert routes[0] in routes;
    assert forall route :: route in routes[1..] ==> route in routes;
  }

  //////////////////////////////////////////////////////////////////////////////
  // Native evaluation in Python's terms
  //////////////////////////////////////////////////////////////////////////////

  ghost function InPythonTerms(route: Route, tensors: map<string, ConcreteTensor>): Evaluation {
    if Roles(route.tensors) != tensors.Keys then NoMatch
    else if RouteOverflows(route, tensors) then Unsupported
    else if RouteVerdict(Stripped(route), tensors, false) == Accepted then Match
    else NoMatch
  }

  lemma EvaluationInPythonTerms(route: Route, tensors: map<string, ConcreteTensor>, query: Query)
    requires Comparable(route, tensors) && query.tensors == Payloads(tensors)
    ensures Evaluated(RenderRoute(route).value, query) == InPythonTerms(route, tensors)
  {
    if Roles(route.tensors) == tensors.Keys {
      NativeEvaluatesStripped(route, tensors, query, false);
    } else {
      OtherRolesReject(route, tensors, query, false);
    }
  }

  // Route k is the first one native does not reject.
  ghost predicate FirstDecision(routes: seq<Route>, tensors: map<string, ConcreteTensor>, k: nat,
      evaluation: Evaluation)
    requires k < |routes|
  {
    && InPythonTerms(routes[k], tensors) == evaluation
    && forall j :: 0 <= j < k ==> InPythonTerms(routes[j], tensors) == NoMatch
  }

  // What Python's rules say about a native winner it does not take: the route declares attributes, or
  // one of the checks the generator dropped does not accept.
  predicate Overlooks(route: Route, tensors: map<string, ConcreteTensor>) {
    route.attributes != {} || !DroppedRouteChecksAccept(route, tensors, false)
  }

  ghost predicate WinnerIsOverlooked(routes: seq<Route>, tensors: map<string, ConcreteTensor>) {
    exists k: nat :: k < |routes| && FirstDecision(routes, tensors, k, Match) && Overlooks(routes[k], tensors)
  }

  // Python reaches route k and divides by zero there.
  predicate RaisesFirstAt(routes: seq<Route>, tensors: map<string, ConcreteTensor>, k: nat)
    requires k < |routes|
  {
    && Considered(routes[k], tensors) && RouteRaises(routes[k], tensors, false)
    && forall j :: 0 <= j < k && Considered(routes[j], tensors) ==> RouteVerdict(routes[j], tensors, false) == Rejected
  }

  predicate PythonDividesByZero(routes: seq<Route>, tensors: map<string, ConcreteTensor>) {
    exists k: nat :: k < |routes| && RaisesFirstAt(routes, tensors, k)
  }

  //////////////////////////////////////////////////////////////////////////////
  // One route at a time
  //////////////////////////////////////////////////////////////////////////////

  lemma FirstDecisionStep(routes: seq<Route>, tensors: map<string, ConcreteTensor>, k: nat, evaluation: Evaluation)
    requires 0 < k < |routes|
    ensures FirstDecision(routes, tensors, k, evaluation) <==>
      InPythonTerms(routes[0], tensors) == NoMatch && FirstDecision(routes[1..], tensors, k - 1, evaluation)
  {
    assert forall j :: 0 <= j < k - 1 ==> routes[1..][j] == routes[j + 1];
    assert forall j :: 0 < j < k ==> routes[j] == routes[1..][j - 1];
  }

  lemma OverlookedStep(routes: seq<Route>, tensors: map<string, ConcreteTensor>)
    requires routes != []
    ensures WinnerIsOverlooked(routes, tensors) <==> match InPythonTerms(routes[0], tensors)
      case Match => Overlooks(routes[0], tensors)
      case NoMatch => WinnerIsOverlooked(routes[1..], tensors)
      case Unsupported => false
  {
    forall k: nat | 0 < k < |routes|
      ensures FirstDecision(routes, tensors, k, Match) <==>
        InPythonTerms(routes[0], tensors) == NoMatch && FirstDecision(routes[1..], tensors, k - 1, Match)
    {
      FirstDecisionStep(routes, tensors, k, Match);
    }
    if InPythonTerms(routes[0], tensors) == Match && Overlooks(routes[0], tensors) {
      assert FirstDecision(routes, tensors, 0, Match);
    }
    if InPythonTerms(routes[0], tensors) == NoMatch && WinnerIsOverlooked(routes[1..], tensors) {
      var rest := routes[1..];
      var k: nat :| k < |rest| && FirstDecision(rest, tensors, k, Match) && Overlooks(rest[k], tensors);
      assert FirstDecision(routes, tensors, k + 1, Match);
    }
  }

  lemma RaisesFirstStep(routes: seq<Route>, tensors: map<string, ConcreteTensor>, k: nat)
    requires 0 < k < |routes|
    ensures RaisesFirstAt(routes, tensors, k) <==>
      && (Considered(routes[0], tensors) ==> RouteVerdict(routes[0], tensors, false) == Rejected)
      && RaisesFirstAt(routes[1..], tensors, k - 1)
  {
    assert forall j :: 0 <= j < k - 1 ==> routes[1..][j] == routes[j + 1];
    assert forall j :: 0 < j < k ==> routes[j] == routes[1..][j - 1];
  }

  lemma DividesByZeroStep(routes: seq<Route>, tensors: map<string, ConcreteTensor>)
    requires routes != []
    ensures PythonDividesByZero(routes, tensors) <==>
      || (Considered(routes[0], tensors) && RouteVerdict(routes[0], tensors, false) == DivisionByZero)
      || ((Considered(routes[0], tensors) ==> RouteVerdict(routes[0], tensors, false) == Rejected)
          && PythonDividesByZero(routes[1..], tensors))
  {
    RouteRaisesIff(routes[0], tensors, false);
    forall k: nat | 0 < k < |routes|
      ensures RaisesFirstAt(routes, tensors, k) <==>
        && (Considered(routes[0], tensors) ==> RouteVerdict(routes[0], tensors, false) == Rejected)
        && RaisesFirstAt(routes[1..], tensors, k - 1)
    {
      RaisesFirstStep(routes, tensors, k);
    }
    if Considered(routes[0], tensors) && RouteVerdict(routes[0], tensors, false) == DivisionByZero {
      assert RaisesFirstAt(routes, tensors, 0);
    }
    if (Considered(routes[0], tensors) ==> RouteVerdict(routes[0], tensors, false) == Rejected)
       && PythonDividesByZero(routes[1..], tensors)
    {
      var k: nat :| k < |routes[1..]| && RaisesFirstAt(routes[1..], tensors, k);
      assert RaisesFirstAt(routes, tensors, k + 1);
    }
  }

  lemma {:induction false} MatchedIdIsARoute(routes: seq<Route>, tensors: map<string, ConcreteTensor>)
    ensures PythonSelect(routes, tensors).Matched? ==>
      exists k :: 0 <= k < |routes| && PythonSelect(routes, tensors).routeId == routes[k].id
  {
    if routes != [] {
      MatchedIdIsARoute(routes[1..], tensors);
      assert forall k :: 0 <= k < |routes[1..]| ==> routes[1..][k] == routes[k + 1];
    }
  }

  //////////////////////////////////////////////////////////////////////////////
  // Main results
  //////////////////////////////////////////////////////////////////////////////

  /** Python's selection raises exactly when some route it reaches divides by zero. */
  lemma {:induction false} SelectionRaisesIff(routes: seq<Route>, tensors: map<string, ConcreteTensor>)
    ensures PythonSelect(routes, tensors) == Raised <==> PythonDividesByZero(routes, tensors)
  {
    if routes != [] {
      DividesByZeroStep(routes, tensors);
      SelectionRaisesIff(routes[1..], tensors);
    }
  }

  // The same route, or none on either side.
  predicate SameChoice(native: Selection, python: PythonSelection) {
    match native
    case Selected(id) => python == Matched(id)
    case NothingMatches => python == Unmatched
    case NotSupported => false
  }

  // What native makes of the first route of a table, given what it makes of the rest.
  lemma NativeStep(routes: seq<Route>, tensors: map<string, ConcreteTensor>, query: Query)
    requires ComparableTable(routes, tensors) && routes != []
    requires query.tensors == Payloads(tensors) && query.allowedRouteIds.None?
    ensures RenderRoutes(routes[1..]).Some?
    ensures SelectedFrom(RenderRoutes(routes).value, query) == match InPythonTerms(routes[0], tensors)
      case Match => Selected(routes[0].id)
      case NoMatch => SelectedFrom(RenderRoutes(routes[1..]).value, query)
      case Unsupported => NotSupported
  {
    TableTail(routes, tensors);
    EvaluationInPythonTerms(routes[0], tensors, query);
    var natives := RenderRoutes(routes).value;
    assert natives[0] == RenderRoute(routes[0]).value && natives[1..] == RenderRoutes(routes[1..]).value;
  }

  // Python on a route native rejects.
  lemma RejectedRoute(routes: seq<Route>, tensors: map<string, ConcreteTensor>)
    requires routes != [] && InPythonTerms(routes[0], tensors) == NoMatch
    ensures PythonSelect(routes, tensors) ==
      if Considered(routes[0], tensors) && RouteVerdict(routes[0], tensors, false) == DivisionByZero then Raised
      else PythonSelect(routes[1..], tensors)
  {
    StrippedVerdict(routes[0], tensors, false);
  }

  // Python on a route native takes.
  lemma MatchedRoute(routes: seq<Route>, tensors: map<string, ConcreteTensor>)
    requires ComparableTable(routes, tensors) && routes != [] && InPythonTerms(routes[0], tensors) == Match
    ensures PythonSelect(routes, tensors) == Matched(routes[0].id) <==> !Overlooks(routes[0], tensors)
    ensures !Overlooks(routes[0], tensors) ==>
      Considered(routes[0], tensors) && RouteVerdict(routes[0], tensors, false) == Accepted
  {
    StrippedVerdict(routes[0], tensors, false);
    MatchedIdIsARoute(routes[1..], tensors);
    assert forall k :: 0 <= k < |routes[1..]| ==> routes[1..][k].id != routes[0].id;
  }

  predicate Answered(native: Selection) {
    !native.NotSupported?
  }

  // Native's answer is Python's exactly under the two conditions.
  ghost predicate AgreesExactly(native: Selection, routes: seq<Route>, tensors: map<string, ConcreteTensor>) {
    Answered(native) ==>
      (SameChoice(native, PythonSelect(routes, tensors))
       <==> !WinnerIsOverlooked(routes, tensors) && !PythonDividesByZero(routes, tensors))
  }

  lemma MatchAgrees(routes: seq<Route>, tensors: map<string, ConcreteTensor>)
    requires ComparableTable(routes, tensors) && routes != [] && InPythonTerms(routes[0], tensors) == Match
    ensures AgreesExactly(Selected(routes[0].id), routes, tensors)
  {
    MatchedRoute(routes, tensors);
    OverlookedStep(routes, tensors);
    DividesByZeroStep(routes, tensors);
  }

  lemma NoMatchAgrees(native: Selection, routes: seq<Route>, tensors: map<string, ConcreteTensor>)
    requires routes != [] && InPythonTerms(routes[0], tensors) == NoMatch
    requires AgreesExactly(native, routes[1..], tensors)
    ensures AgreesExactly(native, routes, tensors)
  {
    StrippedVerdict(routes[0], tensors, false);
    RejectedRoute(routes, tensors);
    OverlookedStep(routes, tensors);
    DividesByZeroStep(routes, tensors);
  }

  /** When native selection answers, it is Python's answer exactly when native's winner is not a route Python
      overlooks (it declares attributes, or a dropped check of it does not accept) and no route Python
      reaches divides by zero. */
  lemma {:induction false} SelectorsAgree(routes: seq<Route>, tensors: map<string, ConcreteTensor>, query: Query)
    requires ComparableTable(routes, tensors)
    requires query.tensors == Payloads(tensors) && query.allowedRouteIds.None?
    ensures AgreesExactly(SelectedFrom(RenderRoutes(routes).value, query), routes, tensors)
  {
    if routes != [] {
      NativeStep(routes, tensors, query);
      match InPythonTerms(routes[0], tensors)
      case Match =>
        MatchAgrees(routes, tensors);
      case NoMatch =>
        TableTail(routes, tensors);
        SelectorsAgree(routes[1..], tensors, query);
        NoMatchAgrees(SelectedFrom(RenderRoutes(routes[1..]).value, query), routes, tensors);
      case Unsupported =>
    }
  }

  // Products of route k overflow, and no earlier route matches natively.
  ghost predicate OverflowStopsAt(routes: seq<Route>, tensors: map<string, ConcreteTensor>, k: nat)
    requires k < |routes|
  {
    && Roles(routes[k].tensors) == tensors.Keys && RouteOverflows(routes[k], tensors)
    && forall j :: 0 <= j < k ==> InPythonTerms(routes[j], tensors) != Match
  }

  ghost predicate OverflowStops(routes: seq<Route>, tensors: map<string, ConcreteTensor>) {
    exists k: nat :: k < |routes| && OverflowStopsAt(routes, tensors, k)
  }

  lemma OverflowStopsStep(routes: seq<Route>, tensors: map<string, ConcreteTensor>)
    requires routes != []
    ensures OverflowStops(routes, tensors) <==> match InPythonTerms(routes[0], tensors)
      case Match => false
      case NoMatch => OverflowStops(routes[1..], tensors)
      case Unsupported => true
  {
    forall k: nat | 0 < k < |routes|
      ensures OverflowStopsAt(routes, tensors, k) <==>
        InPythonTerms(routes[0], tensors) != Match && OverflowStopsAt(routes[1..], tensors, k - 1)
    {
      assert forall j :: 0 <= j < k - 1 ==> routes[1..][j] == routes[j + 1];
      assert forall j :: 0 < j < k ==> routes[j] == routes[1..][j - 1];
    }
    if InPythonTerms(routes[0], tensors) == Unsupported {
      assert OverflowStopsAt(routes, tensors, 0);
    }
    if InPythonTerms(routes[0], tensors) == NoMatch && OverflowStops(routes[1..], tensors) {
      var k: nat :| k < |routes[1..]| && OverflowStopsAt(routes[1..], tensors, k);
      assert OverflowStopsAt(routes, tensors, k + 1);
    }
  }

  /** Native selection is unsupported exactly when products of some route overflow before any route
      matches. */
  lemma {:induction false} OverflowStopsNative(routes: seq<Route>, tensors: map<string, ConcreteTensor>, query: Query)
    requires ComparableTable(routes, tensors)
    requires query.tensors == Payloads(tensors) && query.allowedRouteIds.None?
    ensures SelectedFrom(RenderRoutes(routes).value, query) == NotSupported <==> OverflowStops(routes, tensors)
  {
    if routes != [] {
      TableTail(routes, tensors);
      NativeStep(routes, tensors, query);
      OverflowStopsStep(routes, tensors);
      OverflowStopsNative(routes[1..], tensors, query);
    }
  }

  /** Python takes none of the routes native rejects. */
  lemma {:induction false} RejectedRoutesAreNotTaken(routes: seq<Route>, tensors: map<string, ConcreteTensor>)
    requires forall route :: route in routes ==> InPythonTerms(route, tensors) == NoMatch
    ensures !PythonSelect(routes, tensors).Matched?
  {
    if routes != [] {
      assert routes[0] in routes;
      RejectedRoute(routes, tensors);
      RejectedRoutesAreNotTaken(routes[1..], tensors);
    }
  }

  // Nothing in the table mentions attributes or divides by zero.
  predicate Ordinary(routes: seq<Route>) {
    forall route :: route in routes ==>
      && route.attributes == {}
      && forall check :: check in route.checks ==> !ReferencesAttribute(check) && check.multipleOf != Some(0)
  }

  /** On a table without attributes and zero divisors the selectors pick the same route, or neither picks
      one, whenever native answers. */
  lemma OrdinaryTablesAgree(routes: seq<Route>, tensors: map<string, ConcreteTensor>, query: Query)
    requires ComparableTable(routes, tensors) && Ordinary(routes)
    requires query.tensors == Payloads(tensors) && query.allowedRouteIds.None?
    ensures var native := SelectedFrom(RenderRoutes(routes).value, query);
      Answered(native) ==> SameChoice(native, PythonSelect(routes, tensors))
  {
    SelectorsAgree(routes, tensors, query);
    NothingIsOverlooked(routes, tensors);
    NothingDividesByZero(routes, tensors);
  }

  lemma NothingIsOverlooked(routes: seq<Route>, tensors: map<string, ConcreteTensor>)
    requires Ordinary(routes)
    ensures !WinnerIsOverlooked(routes, tensors)
  {
    forall k: nat | k < |routes| && FirstDecision(routes, tensors, k, Match) ensures !Overlooks(routes[k], tensors) {
      assert routes[k] in routes;
    }
  }

  lemma NothingDividesByZero(routes: seq<Route>, tensors: map<string, ConcreteTensor>)
    requires Ordinary(routes)
    ensures !PythonDividesByZero(routes, tensors)
  {
    forall k: nat | k < |routes| ensures !RaisesFirstAt(routes, tensors, k) {
      assert routes[k] in routes;
    }
  }

  //////////////////////////////////////////////////////////////////////////////
  // A route that declares attributes
  //////////////////////////////////////////////////////////////////////////////

  const DECLARING_ROUTE := PLAIN_ROUTE.(attributes := {"mode"})

  /** On a query without attributes native selects a route that declares one, and Python matches nothing. */
  lemma DeclaringRouteIsSelectedNatively(query: Query)
    requires query.tensors == Payloads(map["x" := SMALL_TENSOR]) && query.allowedRouteIds.None?
    ensures ComparableTable([DECLARING_ROUTE], map["x" := SMALL_TENSOR])
    ensures SelectedFrom(RenderRoutes([DECLARING_ROUTE]).value, query) == Selected("plain")
    ensures PythonSelect([DECLARING_ROUTE], map["x" := SMALL_TENSOR]) == Unmatched
  {
    var tensors, routes := map["x" := SMALL_TENSOR], [DECLARING_ROUTE];
    PlainRouteAccepts(tensors, false);
    assert Stripped(DECLARING_ROUTE) == PLAIN_ROUTE;
    assert routes[1..] == [];
    assert "mode" in DECLARING_ROUTE.attributes;
    assert InPythonTerms(DECLARING_ROUTE, tensors) == Match;
    NativeStep(routes, tensors, query);
  }
}
