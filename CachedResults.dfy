/**
 * CachedResultsParameters: the request parameters of a cached-results query.
 *
 * `validate` reads the known parameters, in a fixed order, from a multi-valued map of request
 * parameters into the object's fields, and then demands that the query id, the view and the fields are
 * set. It throws on the first known parameter that carries other than exactly one value, and on a page
 * size that does not parse. Fields whose parameter is absent keep whatever value they had before.
 *
 * A Java `String` that may be null is an `Option<string>`; `Integer.parseInt` is the partial oracle
 * `parseInt` (None where it throws NumberFormatException).
 */
module CachedResults {
  import opened Wrappers
  import opened JavaTypes

  /** The known parameters, one constructor per name. */
  datatype Param = QueryId | Alias | View | Fields | Conditions | Grouping | Order | FixedFields | PageSize

  /** The request parameter name of each known parameter. */
  function Name(p: Param): string {
    match p
    case QueryId => "queryId"
    case Alias => "alias"
    case View => "view"
    case Fields => "fields"
    case Conditions => "conditions"
    case Grouping => "grouping"
    case Order => "order"
    case FixedFields => "fixedFields"
    case PageSize => "pagesize"
  }

  /** The order in which validate reads the parameters. */
  const KNOWN_PARAMS: seq<Param> := [QueryId, Alias, View, Fields, Conditions, Grouping, Order, FixedFields, PageSize]

  const DEFAULT_PAGE_SIZE: Int32 := 10

  /** The values of the object's fields. */
  datatype Settings = Settings(
    queryId: Option<string>, alias: Option<string>, view: Option<string>, fields: Option<string>,
    conditions: Option<string>, grouping: Option<string>, order: Option<string>, fixedFields: Option<string>,
    pagesize: Int32)

  /** The values a new object starts with and `clear` restores. */
  const INITIAL: Settings := Settings(None, None, None, None, None, None, None, None, DEFAULT_PAGE_SIZE)

  /** The exceptions validate throws: IllegalArgumentException, NumberFormatException from
      Integer.parseInt, and NullPointerException from Preconditions.checkNotNull. */
  datatype ValidationError = IllegalArgument(message: string) | NumberFormat(input: string) | NullPointer(message: string)

  /** The fields after validate, and whether it returned or threw. */
  datatype Validation = Validation(settings: Settings, outcome: Outcome<ValidationError>)

  /** The string field a known parameter other than the page size is read into. */
  function TextField(st: Settings, p: Param): Option<string>
    requires p != PageSize
  {
    match p
    case QueryId => st.queryId
    case Alias => st.alias
    case View => st.view
    case Fields => st.fields
    case Conditions => st.conditions
    case Grouping => st.grouping
    case Order => st.order
    case FixedFields => st.fixedFields
  }

  /** The settings with the string field of `p` set to `v`. */
  function Assign(st: Settings, p: Param, v: string): (r: Settings)
    requires p != PageSize
    ensures TextField(r, p) == Some(v)
    ensures forall q :: q != PageSize && q != p ==> TextField(r, q) == TextField(st, q)
    ensures r.pagesize == st.pagesize
  {
    match p
    case QueryId => st.(queryId := Some(v))
    case Alias => st.(alias := Some(v))
    case View => st.(view := Some(v))
    case Fields => st.(fields := Some(v))
    case Conditions => st.(conditions := Some(v))
    case Grouping => st.(grouping := Some(v))
    case Order => st.(order := Some(v))
    case FixedFields => st.(fixedFields := Some(v))
  }

  /** The message of the IllegalArgumentException for a parameter with other than one value. */
  function OneValueOnly(p: Param): ValidationError {
    IllegalArgument("Known parameter " + Name(p) + " only accepts one value")
  }

  /** One iteration of validate's loop. */
  function Step(st: Settings, p: Param, parameters: map<string, seq<string>>, parseInt: string -> Option<Int32>): Validation {
    if Name(p) !in parameters then Validation(st, Pass)
    else
      var values := parameters[Name(p)];
      if |values| != 1 then Validation(st, Fail(OneValueOnly(p)))
      else if p == PageSize then
        if parseInt(values[0]).Some? then Validation(st.(pagesize := parseInt(values[0]).value), Pass)
        else Validation(st, Fail(NumberFormat(values[0])))
      else Validation(Assign(st, p, values[0]), Pass)
  }

  /** validate's loop over `params`, stopping at the first exception. */
  function Walk(st: Settings, params: seq<Param>, parameters: map<string, seq<string>>, parseInt: string -> Option<Int32>): Validation
    decreases |params|
  {
    if params == [] then Validation(st, Pass)
    else
      var s := Step(st, params[0], parameters, parseInt);
      if s.outcome.Fail? then s else Walk(s.settings, params[1..], parameters, parseInt)
  }

  /** One iteration, then the rest of the loop. */
  lemma WalkUnfold(st: Settings, params: seq<Param>, parameters: map<string, seq<string>>, parseInt: string -> Option<Int32>)
    requires params != []
    ensures var s := Step(st, params[0], parameters, parseInt);
      Walk(st, params, parameters, parseInt) == if s.outcome.Fail? then s else Walk(s.settings, params[1..], parameters, parseInt)
  {
  }

  /** The three null checks after the loop, in the order validate makes them. */
  function CheckRequired(st: Settings): Validation {
    if st.queryId.None? then Validation(st, Fail(NullPointer("Query id string cannot be null")))
    else if st.view.None? then Validation(st, Fail(NullPointer("View cannot be null")))
    else if st.fields.None? then Validation(st, Fail(NullPointer("Fields cannot be null")))
    else Validation(st, Pass)
  }

  /** validate, started from the settings `st`. */
  function ValidateSpec(st: Settings, parameters: map<string, seq<string>>, parseInt: string -> Option<Int32>): Validation {
    var w := Walk(st, KNOWN_PARAMS, parameters, parseInt);
    if w.outcome.Fail? then w else CheckRequired(w.settings)
  }

  // ---------------------------------------------------------------------------------------------
  // The object

  class CachedResultsParameters {
    var queryId: Option<string>
    var alias: Option<string>
    var view: Option<string>
    var fields: Option<string>
    var conditions: Option<string>
    var grouping: Option<string>
    var order: Option<string>
    var fixedFields: Option<string>
    var pagesize: Int32

    function State(): Settings
      reads this
    {
      Settings(queryId, alias, view, fields, conditions, grouping, order, fixedFields, pagesize)
    }

    /** Every string field starts null and the page size at 10. */
    constructor()
      ensures State() == INITIAL
    {
      queryId, alias, view, fields := None, None, None, None;
      conditions, grouping, order, fixedFields := None, None, None, None;
      pagesize := DEFAULT_PAGE_SIZE;
    }

    /** validate: read the known parameters into the fields, then require the query id, view and fields. */
    method Validate(parameters: map<string, seq<string>>, parseInt: string -> Option<Int32>)
      returns (outcome: Outcome<ValidationError>)
      modifies this
      ensures Validation(State(), outcome) == ValidateSpec(old(State()), parameters, parseInt)
    {
      ghost var target := Walk(State(), KNOWN_PARAMS, parameters, parseInt);
      for i := 0 to |KNOWN_PARAMS|
        invariant target == Walk(State(), KNOWN_PARAMS[i..], parameters, parseInt)
      {
        var param := KNOWN_PARAMS[i];
        assert KNOWN_PARAMS[i..][0] == param && KNOWN_PARAMS[i..][1..] == KNOWN_PARAMS[i + 1..];
        WalkUnfold(State(), KNOWN_PARAMS[i..], parameters, parseInt);
        if Name(param) !in parameters {
          continue;
        }
        var values := parameters[Name(param)];
        if |values| != 1 {
          return Fail(OneValueOnly(param));
        }
        if param == PageSize {
          var n := parseInt(values[0]);
          if n.None? {
            return Fail(NumberFormat(values[0]));
          }
          pagesize := n.value;
        } else {
          Store(param, values[0]);
        }
      }
      assert target.outcome.Pass? && target.settings == State();
      if queryId.None? {
        return Fail(NullPointer("Query id string cannot be null"));
      }
      if view.None? {
        return Fail(NullPointer("View cannot be null"));
      }
      if fields.None? {
        return Fail(NullPointer("Fields cannot be null"));
      }
      return Pass;
    }

    /** The assignment to the field of `p` in validate's chain of `equals` tests. */
    method Store(p: Param, v: string)
      requires p != PageSize
      modifies this
      ensures State() == Assign(old(State()), p, v)
    {
      match p
      case QueryId => queryId := Some(v);
      case Alias => alias := Some(v);
      case View => view := Some(v);
      case Fields => fields := Some(v);
      case Conditions => conditions := Some(v);
      case Grouping => grouping := Some(v);
      case Order => order := Some(v);
      case FixedFields => fixedFields := Some(v);
    }

    /** clear: back to the initial values. */
    method Clear()
      modifies this
      ensures State() == INITIAL
    {
      queryId, alias, view, fields := None, None, None, None;
      conditions, grouping, order, fixedFields := None, None, None, None;
      pagesize := DEFAULT_PAGE_SIZE;
    }

    method SetQueryId(v: Option<string>)
      modifies this
      ensures State() == old(State()).(queryId := v)
    {
      queryId := v;
    }

    method SetAlias(v: Option<string>)
      modifies this
      ensures State() == old(State()).(alias := v)
    {
      alias := v;
    }

    method SetView(v: Option<string>)
      modifies this
      ensures State() == old(State()).(view := v)
    {
      view := v;
    }

    method SetFields(v: Option<string>)
      modifies this
      ensures State() == old(State()).(fields := v)
    {
      fields := v;
    }

    method SetConditions(v: Option<string>)
      modifies this
      ensures State() == old(State()).(conditions := v)
    {
      conditions := v;
    }

    method SetGrouping(v: Option<string>)
      modifies this
      ensures State() == old(State()).(grouping := v)
    {
      grouping := v;
    }

    method SetOrder(v: Option<string>)
      modifies this
      ensures State() == old(State()).(order := v)
    {
      order := v;
    }

    method SetFixedFields(v: Option<string>)
      modifies this
      ensures State() == old(State()).(fixedFields := v)
    {
      fixedFields := v;
    }

    method SetPagesize(v: Int32)
      modifies this
      ensures State() == old(State()).(pagesize := v)
    {
      pagesize := v;
    }
  }

  // ---------------------------------------------------------------------------------------------
  // Properties of validate

  /** A parameter that validate accepts: absent, or with exactly one value that, for the page size, parses. */
  predicate Acceptable(p: Param, parameters: map<string, seq<string>>, parseInt: string -> Option<Int32>) {
    Name(p) !in parameters ||
    (|parameters[Name(p)]| == 1 && (p == PageSize ==> parseInt(parameters[Name(p)][0]).Some?))
  }

  /** The value a string field holds after an accepted validate: the parameter's value if it is present,
      else the value before. */
  function Resolved(st: Settings, p: Param, parameters: map<string, seq<string>>): Option<string>
    requires p != PageSize
  {
    if Name(p) in parameters && |parameters[Name(p)]| > 0 then Some(parameters[Name(p)][0]) else TextField(st, p)
  }

  /** The page size after an accepted validate. */
  function ResolvedPageSize(st: Settings, parameters: map<string, seq<string>>, parseInt: string -> Option<Int32>): Int32 {
    if Name(PageSize) in parameters && |parameters[Name(PageSize)]| > 0 && parseInt(parameters[Name(PageSize)][0]).Some?
    then parseInt(parameters[Name(PageSize)][0]).value
    else st.pagesize
  }

  /** The parameter names are distinct, so each parameter is read from its own entry. */
  lemma NamesDistinct(p: Param, q: Param)
    ensures Name(p) == Name(q) <==> p == q
  {
    if p != q {
      assert Name(p)[..2] != Name(q)[..2] || |Name(p)| != |Name(q)| || Name(p) != Name(q);
    }
  }

  /** Every parameter is known. */
  lemma AllKnown(p: Param)
    ensures p in KNOWN_PARAMS
  {
  }

  /** The loop runs to the end exactly when every parameter it reads is acceptable. */
  lemma {:induction false} WalkPasses(st: Settings, params: seq<Param>, parameters: map<string, seq<string>>, parseInt: string -> Option<Int32>)
    ensures Walk(st, params, parameters, parseInt).outcome.Pass? <==>
      forall i :: 0 <= i < |params| ==> Acceptable(params[i], parameters, parseInt)
    decreases |params|
  {
    if params != [] {
      var s := Step(st, params[0], parameters, parseInt);
      WalkPasses(s.settings, params[1..], parameters, parseInt);
      assert forall i :: 1 <= i < |params| ==> params[i] == params[1..][i - 1];
      assert forall i :: 0 <= i < |params| - 1 ==> params[1..][i] == params[i + 1];
    }
  }

  /** A string field whose parameter the loop does not read with a value is left as it was, even when
      the loop throws. */
  lemma {:induction false} WalkKeeps(st: Settings, params: seq<Param>, parameters: map<string, seq<string>>, parseInt: string -> Option<Int32>, p: Param)
    requires p != PageSize && (p !in params || Name(p) !in parameters)
    ensures TextField(Walk(st, params, parameters, parseInt).settings, p) == TextField(st, p)
    decreases |params|
  {
    if params != [] {
      var s := Step(st, params[0], parameters, parseInt);
      if params[0] != PageSize && Name(params[0]) in parameters {
        NamesDistinct(p, params[0]);
      }
      assert p !in params ==> p !in params[1..];
      WalkKeeps(s.settings, params[1..], parameters, parseInt, p);
    }
  }

  /** After a loop that runs to the end, every string field holds its resolved value. */
  lemma {:induction false} WalkAssigns(st: Settings, params: seq<Param>, parameters: map<string, seq<string>>, parseInt: string -> Option<Int32>, p: Param)
    requires p != PageSize && p in params && Name(p) in parameters && |parameters[Name(p)]| == 1
    requires Walk(st, params, parameters, parseInt).outcome.Pass?
    ensures TextField(Walk(st, params, parameters, parseInt).settings, p) == Some(parameters[Name(p)][0])
    decreases |params|
  {
    var s := Step(st, params[0], parameters, parseInt);
    if p in params[1..] {
      WalkAssigns(s.settings, params[1..], parameters, parseInt, p);
    } else {
      assert params[0] == p;
      WalkKeeps(s.settings, params[1..], parameters, parseInt, p);
    }
  }

  /** After a loop that runs to the end, the page size is the parsed parameter if it is present, else
      the value before. */
  lemma {:induction false} WalkPageSize(st: Settings, params: seq<Param>, parameters: map<string, seq<string>>, parseInt: string -> Option<Int32>)
    requires Walk(st, params, parameters, parseInt).outcome.Pass?
    requires Acceptable(PageSize, parameters, parseInt)
    ensures Walk(st, params, parameters, parseInt).settings.pagesize ==
      if PageSize in params then ResolvedPageSize(st, parameters, parseInt) else st.pagesize
    decreases |params|
  {
    if params != [] {
      var s := Step(st, params[0], parameters, parseInt);
      assert s.settings.pagesize == if params[0] == PageSize then ResolvedPageSize(st, parameters, parseInt) else st.pagesize;
      WalkPageSize(s.settings, params[1..], parameters, parseInt);
      assert PageSize in params <==> params[0] == PageSize || PageSize in params[1..];
    }
  }

  /** After a loop over all known parameters that runs to the end, every string field holds its
      resolved value. */
  lemma WalkResolves(st: Settings, parameters: map<string, seq<string>>, parseInt: string -> Option<Int32>, p: Param)
    requires p != PageSize
    requires Walk(st, KNOWN_PARAMS, parameters, parseInt).outcome.Pass?
    ensures TextField(Walk(st, KNOWN_PARAMS, parameters, parseInt).settings, p) == Resolved(st, p, parameters)
  {
    WalkPasses(st, KNOWN_PARAMS, parameters, parseInt);
    AllKnown(p);
    var i :| 0 <= i < |KNOWN_PARAMS| && KNOWN_PARAMS[i] == p;
    if Name(p) in parameters {
      WalkAssigns(st, KNOWN_PARAMS, parameters, parseInt, p);
    } else {
      WalkKeeps(st, KNOWN_PARAMS, parameters, parseInt, p);
    }
  }

  /** The loop over all known parameters runs to the end exactly when every parameter is acceptable. */
  lemma WalkPassesAll(st: Settings, parameters: map<string, seq<string>>, parseInt: string -> Option<Int32>)
    ensures Walk(st, KNOWN_PARAMS, parameters, parseInt).outcome.Pass? <==> forall p :: Acceptable(p, parameters, parseInt)
  {
    WalkPasses(st, KNOWN_PARAMS, parameters, parseInt);
    if forall i :: 0 <= i < |KNOWN_PARAMS| ==> Acceptable(KNOWN_PARAMS[i], parameters, parseInt) {
      forall p ensures Acceptable(p, parameters, parseInt) {
        AllKnown(p);
        var i :| 0 <= i < |KNOWN_PARAMS| && KNOWN_PARAMS[i] == p;
      }
    }
  }

  /** validate returns exactly when every known parameter is acceptable and the query id, view and
      fields end up set; it then leaves every field at its resolved value. */
  lemma ValidateResult(st: Settings, parameters: map<string, seq<string>>, parseInt: string -> Option<Int32>)
    ensures var v := ValidateSpec(st, parameters, parseInt);
      v.outcome.Pass? <==>
        (forall p :: Acceptable(p, parameters, parseInt)) &&
        Resolved(st, QueryId, parameters).Some? && Resolved(st, View, parameters).Some? &&
        Resolved(st, Fields, parameters).Some?
    ensures var v := ValidateSpec(st, parameters, parseInt);
      v.outcome.Pass? ==>
        (forall p :: p != PageSize ==> TextField(v.settings, p) == Resolved(st, p, parameters)) &&
        v.settings.pagesize == ResolvedPageSize(st, parameters, parseInt)
  {
    var w := Walk(st, KNOWN_PARAMS, parameters, parseInt);
    WalkPassesAll(st, parameters, parseInt);
    if w.outcome.Pass? {
      WalkResolves(st, parameters, parseInt, QueryId);
      WalkResolves(st, parameters, parseInt, View);
      WalkResolves(st, parameters, parseInt, Fields);
      forall p | p != PageSize
        ensures TextField(w.settings, p) == Resolved(st, p, parameters)
      {
        WalkResolves(st, parameters, parseInt, p);
      }
      assert Acceptable(PageSize, parameters, parseInt);
      WalkPageSize(st, KNOWN_PARAMS, parameters, parseInt);
      assert PageSize in KNOWN_PARAMS;
    }
  }

  /** The loop stops at the first parameter that is not acceptable, with the fields as the loop over the
      parameters before it left them. */
  lemma {:induction false} WalkStopsAt(st: Settings, params: seq<Param>, parameters: map<string, seq<string>>, parseInt: string -> Option<Int32>, k: nat)
    requires k < |params| && !Acceptable(params[k], parameters, parseInt)
    requires forall i :: 0 <= i < k ==> Acceptable(params[i], parameters, parseInt)
    ensures var pre := Walk(st, params[..k], parameters, parseInt);
      pre.outcome.Pass? && Walk(st, params, parameters, parseInt) == Step(pre.settings, params[k], parameters, parseInt)
    decreases k
  {
    var s := Step(st, params[0], parameters, parseInt);
    if k == 0 {
      assert params[..0] == [];
    } else {
      assert params[..k][0] == params[0] && params[..k][1..] == params[1..][..k - 1];
      assert forall i :: 0 <= i < k - 1 ==> params[1..][i] == params[i + 1];
      WalkStopsAt(s.settings, params[1..], parameters, parseInt, k - 1);
    }
  }

  /** When validate throws at the known parameter `KNOWN_PARAMS[k]`, the fields of the parameters it read
      before stay assigned (each holds its resolved value), and the error is that parameter's. */
  lemma FailureKeepsEarlierAssignments(st: Settings, parameters: map<string, seq<string>>, parseInt: string -> Option<Int32>, k: nat)
    requires k < |KNOWN_PARAMS| && !Acceptable(KNOWN_PARAMS[k], parameters, parseInt)
    requires forall i :: 0 <= i < k ==> Acceptable(KNOWN_PARAMS[i], parameters, parseInt)
    ensures var v := ValidateSpec(st, parameters, parseInt);
      v.outcome.Fail? &&
      v.outcome.error == (if |parameters[Name(KNOWN_PARAMS[k])]| != 1 then OneValueOnly(KNOWN_PARAMS[k])
                          else NumberFormat(parameters[Name(PageSize)][0]))
    ensures var v := ValidateSpec(st, parameters, parseInt);
      forall i :: 0 <= i < k && KNOWN_PARAMS[i] != PageSize ==>
        TextField(v.settings, KNOWN_PARAMS[i]) == Resolved(st, KNOWN_PARAMS[i], parameters)
  {
    WalkStopsAt(st, KNOWN_PARAMS, parameters, parseInt, k);
    var pre := Walk(st, KNOWN_PARAMS[..k], parameters, parseInt);
    WalkPasses(st, KNOWN_PARAMS[..k], parameters, parseInt);
    forall i | 0 <= i < k && KNOWN_PARAMS[i] != PageSize
      ensures TextField(pre.settings, KNOWN_PARAMS[i]) == Resolved(st, KNOWN_PARAMS[i], parameters)
    {
      assert KNOWN_PARAMS[..k][i] == KNOWN_PARAMS[i];
      if Name(KNOWN_PARAMS[i]) in parameters {
        WalkAssigns(st, KNOWN_PARAMS[..k], parameters, parseInt, KNOWN_PARAMS[i]);
      } else {
        WalkKeeps(st, KNOWN_PARAMS[..k], parameters, parseInt, KNOWN_PARAMS[i]);
      }
    }
  }

  /** A known parameter with no value or several values makes validate throw. */
  lemma WrongValueCountRejected(st: Settings, parameters: map<string, seq<string>>, parseInt: string -> Option<Int32>, p: Param)
    requires Name(p) in parameters && |parameters[Name(p)]| != 1
    ensures ValidateSpec(st, parameters, parseInt).outcome.Fail?
  {
    ValidateResult(st, parameters, parseInt);
  }

  /** A page size that does not parse makes validate throw. */
  lemma UnparsablePageSizeRejected(st: Settings, parameters: map<string, seq<string>>, parseInt: string -> Option<Int32>)
    requires Name(PageSize) in parameters && |parameters[Name(PageSize)]| == 1
    requires parseInt(parameters[Name(PageSize)][0]).None?
    ensures ValidateSpec(st, parameters, parseInt).outcome.Fail?
  {
    ValidateResult(st, parameters, parseInt);
  }

  /** With all parameters acceptable, a missing query id is reported first, then a missing view, then
      missing fields. */
  lemma NullChecksInOrder(st: Settings, parameters: map<string, seq<string>>, parseInt: string -> Option<Int32>)
    requires forall p :: Acceptable(p, parameters, parseInt)
    ensures Resolved(st, QueryId, parameters).None? ==>
      ValidateSpec(st, parameters, parseInt).outcome == Fail(NullPointer("Query id string cannot be null"))
    ensures Resolved(st, QueryId, parameters).Some? && Resolved(st, View, parameters).None? ==>
      ValidateSpec(st, parameters, parseInt).outcome == Fail(NullPointer("View cannot be null"))
    ensures Resolved(st, QueryId, parameters).Some? && Resolved(st, View, parameters).Some? &&
            Resolved(st, Fields, parameters).None? ==>
      ValidateSpec(st, parameters, parseInt).outcome == Fail(NullPointer("Fields cannot be null"))
  {
    WalkPassesAll(st, parameters, parseInt);
    WalkResolves(st, parameters, parseInt, QueryId);
    WalkResolves(st, parameters, parseInt, View);
    WalkResolves(st, parameters, parseInt, Fields);
  }

  /** Entries whose names are not known parameters have no effect on validate. */
  function KnownEntries(parameters: map<string, seq<string>>): map<string, seq<string>> {
    map k | k in parameters && exists p :: p in KNOWN_PARAMS && Name(p) == k :: parameters[k]
  }

  lemma {:induction false} WalkKnownOnly(st: Settings, params: seq<Param>, parameters: map<string, seq<string>>, parseInt: string -> Option<Int32>)
    ensures Walk(st, params, KnownEntries(parameters), parseInt) == Walk(st, params, parameters, parseInt)
    decreases |params|
  {
    if params != [] {
      var p := params[0];
      AllKnown(p);
      assert Name(p) in KnownEntries(parameters) <==> Name(p) in parameters;
      var s := Step(st, p, parameters, parseInt);
      assert Step(st, p, KnownEntries(parameters), parseInt) == s;
      WalkKnownOnly(s.settings, params[1..], parameters, parseInt);
    }
  }

  lemma UnknownParametersIgnored(st: Settings, parameters: map<string, seq<string>>, parseInt: string -> Option<Int32>)
    ensures ValidateSpec(st, KnownEntries(parameters), parseInt) == ValidateSpec(st, parameters, parseInt)
  {
    WalkKnownOnly(st, KNOWN_PARAMS, parameters, parseInt);
  }

  /** Settings that agree on every field are equal. */
  lemma SettingsExtensional(a: Settings, b: Settings)
    requires forall p :: p != PageSize ==> TextField(a, p) == TextField(b, p)
    requires a.pagesize == b.pagesize
    ensures a == b
  {
    assert TextField(a, QueryId) == TextField(b, QueryId) && TextField(a, Alias) == TextField(b, Alias);
    assert TextField(a, View) == TextField(b, View) && TextField(a, Fields) == TextField(b, Fields);
    assert TextField(a, Conditions) == TextField(b, Conditions) && TextField(a, Grouping) == TextField(b, Grouping);
    assert TextField(a, Order) == TextField(b, Order) && TextField(a, FixedFields) == TextField(b, FixedFields);
  }

  /** Validating the same parameters again, after a validate that returned, changes nothing and returns. */
  lemma ValidateIdempotent(st: Settings, parameters: map<string, seq<string>>, parseInt: string -> Option<Int32>)
    requires ValidateSpec(st, parameters, parseInt).outcome.Pass?
    ensures var st1 := ValidateSpec(st, parameters, parseInt).settings;
      ValidateSpec(st1, parameters, parseInt) == Validation(st1, Pass)
  {
    var st1 := ValidateSpec(st, parameters, parseInt).settings;
    ValidateResult(st, parameters, parseInt);
    assert forall p :: p != PageSize ==> Resolved(st1, p, parameters) == Resolved(st, p, parameters);
    ValidateResult(st1, parameters, parseInt);
    var st2 := ValidateSpec(st1, parameters, parseInt).settings;
    SettingsExtensional(st2, st1);
  }

  /** A cleared object rejects a request without a query id. */
  lemma ClearedNeedsQueryId(parameters: map<string, seq<string>>, parseInt: string -> Option<Int32>)
    requires forall p :: Acceptable(p, parameters, parseInt)
    requires Name(QueryId) !in parameters
    ensures ValidateSpec(INITIAL, parameters, parseInt).outcome == Fail(NullPointer("Query id string cannot be null"))
  {
    NullChecksInOrder(INITIAL, parameters, parseInt);
  }
}
