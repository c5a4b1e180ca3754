/** The second half of the generated `ParseCommand`
    (TblGen/Backends/Commands.template.cs): pick the command by name, give
    every parameter value to a parameter (by name, or by position), fill in
    defaults, convert each value to its parameter's type and call the
    command's handler. */
module CommandDispatch {
  import opened Wrappers
  import opened CSharpInt
  import opened DecimalText
  import opened Commands
  import opened Texts

  /** The parameter types a `Command` record can declare. */
  datatype ParamType = IntParam | DoubleParam | DecimalParam | StringParam

  /** A declared parameter; an empty default means the parameter is required. */
  datatype ParamSpec = ParamSpec(name: string, ptype: ParamType, defaultValue: string)

  /** A `Command` record: its name on the console, its parameters in order
      and its help text. */
  datatype CommandSpec = CommandSpec(cmd: string, params: seq<ParamSpec>, help: string)

  /** A converted argument of the handler. */
  datatype Arg = IntArg(i: int) | RealArg(r: real) | StringArg(s: string)

  /** What the parser writes to the console log. */
  datatype Message =
    | UnexpectedCharacter
    | IgnoringUnknownParameter(name: string)
    | IgnoringParameter(value: string)
    | MissingParameter(name: string)
    | ExpectsInteger(index: nat)
    | ExpectsFloatingPoint(index: nat)
    | ExpectsDecimal(index: nat)
    | UnknownCommand

  /** How the line ends: the handler is called with its arguments, the
      parser gave up after logging, or `Dictionary.Add` threw because a
      parameter was given twice. */
  datatype Outcome = Handle(cmd: string, args: seq<Arg>) | Rejected | DuplicateParameter

  datatype Run = Run(log: seq<Message>, outcome: Outcome)

  /** Where a value without a name goes. As written it goes to EVERY
      parameter still unassigned (`FillEvery`); the evident intent is the
      first one (`FillFirst`). */
  datatype PositionalRule = FillEvery | FillFirst

  /** The conversions of `double.TryParse` and `decimal.TryParse`, which
      depend on the culture; `int.TryParse` is modelled by `TryParseInt`. */
  datatype Parsers = Parsers(parseDouble: string -> Option<real>, parseDecimal: string -> Option<real>)

  function Names(params: seq<ParamSpec>): (r: seq<string>)
    ensures |r| == |params| && forall k :: 0 <= k < |params| ==> r[k] == params[k].name
  {
    seq(|params|, k requires 0 <= k < |params| => params[k].name)
  }

  /** Parameter names are distinct, which the generated C# needs, since each
      parameter becomes a local variable of that name. */
  predicate DistinctNames(params: seq<ParamSpec>)
  {
    forall j, k :: 0 <= j < k < |params| ==> params[j].name != params[k].name
  }

  // ---------------------------------------------------------------------------
  // Assigning the values to parameters
  // ---------------------------------------------------------------------------

  /** The dictionary of given values, and the log so far; or the exception
      of a second `Add` under one key, with the log written before it. */
  datatype Assignment = Assignment(values: map<string, string>, log: seq<Message>) | Duplicate(log: seq<Message>)

  predicate AllAssigned(params: seq<ParamSpec>, m: map<string, string>)
  {
    forall k :: 0 <= k < |params| ==> params[k].name in m
  }

  /** As written: every parameter not yet in the dictionary gets the value. */
  function FillUnassigned(params: seq<ParamSpec>, m: map<string, string>, v: string): map<string, string>
  {
    if params == [] then m
    else
      var r := FillUnassigned(params[..|params| - 1], m, v);
      var name := params[|params| - 1].name;
      if name in r then r else r[name := v]
  }

  /** The index of the first parameter not yet in the dictionary. */
  function FirstUnassigned(params: seq<ParamSpec>, m: map<string, string>): (r: Option<nat>)
    ensures r.None? <==> AllAssigned(params, m)
    ensures r.Some? ==> (r.value < |params| && params[r.value].name !in m
      && forall k :: 0 <= k < r.value ==> params[k].name in m)
  {
    if params == [] then None
    else if params[0].name !in m then Some(0)
    else match FirstUnassigned(params[1..], m)
      case None => None
      case Some(k) => Some(k + 1)
  }

  /** One value of the line. */
  function AssignOne(params: seq<ParamSpec>, a: Assignment, pv: ParamValue, rule: PositionalRule): Assignment
  {
    match a
    case Duplicate(log) => Duplicate(log)
    case Assignment(m, log) =>
      match pv.name
      case Some(name) =>
        if name !in Names(params) then Assignment(m, log + [IgnoringUnknownParameter(name)])
        else if name in m then Duplicate(log)
        else Assignment(m[name := pv.value], log)
      case None =>
        if AllAssigned(params, m) then Assignment(m, log + [IgnoringParameter(pv.value)])
        else if rule == FillEvery then Assignment(FillUnassigned(params, m, pv.value), log)
        else Assignment(m[params[FirstUnassigned(params, m).value].name := pv.value], log)
  }

  /** All values of the line, from the first to the last. */
  function AssignAll(params: seq<ParamSpec>, values: seq<ParamValue>, rule: PositionalRule): Assignment
  {
    if values == [] then Assignment(map[], [])
    else AssignOne(params, AssignAll(params, values[..|values| - 1], rule), values[|values| - 1], rule)
  }

  /** The assignment loop over the values. */
  method AssignParams(params: seq<ParamSpec>, values: seq<ParamValue>) returns (a: Assignment)
    ensures a == AssignAll(params, values, FillFirst)
  {
    a := Assignment(map[], []);
    var n := 0;
    while n < |values|
      invariant 0 <= n <= |values|
      invariant AssignAll(params, values[..n], FillFirst) == a
    {
      assert values[..n + 1][..n] == values[..n];
      if a.Duplicate? {
        DuplicateSticks(params, values, FillFirst, n);
        return;
      }
      a := AssignValue(params, a.values, a.log, values[n]);
      n := n + 1;
    }
    assert values[..n] == values;
  }

  /** Once a parameter has been given twice, the exception ends the loop:
      the later values neither assign nor log anything. */
  lemma {:induction false} DuplicateSticks(params: seq<ParamSpec>, values: seq<ParamValue>, rule: PositionalRule, n: nat)
    requires n <= |values| && AssignAll(params, values[..n], rule).Duplicate?
    ensures AssignAll(params, values, rule) == AssignAll(params, values[..n], rule)
    decreases |values| - n
  {
    if n < |values| {
      assert values[..n + 1][..n] == values[..n];
      DuplicateSticks(params, values, rule, n + 1);
    } else {
      assert values[..n] == values;
    }
  }

  /** When `Dictionary.Add` throws, it is at a named value whose parameter
      already has one, and the messages logged for the values before it
      stay in the log. */
  lemma {:induction false} DuplicateLog(params: seq<ParamSpec>, values: seq<ParamValue>, rule: PositionalRule)
    returns (n: nat)
    requires AssignAll(params, values, rule).Duplicate?
    ensures n < |values| && AssignAll(params, values[..n], rule).Assignment?
    ensures values[n].name.Some? && values[n].name.value in Names(params)
    ensures values[n].name.value in AssignAll(params, values[..n], rule).values
    ensures AssignAll(params, values, rule).log == AssignAll(params, values[..n], rule).log
  {
    var k := |values| - 1;
    var prefix := values[..k];
    if AssignAll(params, prefix, rule).Duplicate? {
      n := DuplicateLog(params, prefix, rule);
      assert prefix[..n] == values[..n] && prefix[n] == values[n];
    } else {
      n := k;
    }
  }

  /** One value: the generated tests of its name against each parameter name,
      written as a loop over the parameters. */
  method AssignValue(params: seq<ParamSpec>, given: map<string, string>, log: seq<Message>, paramValue: ParamValue)
    returns (a: Assignment)
    ensures a == AssignOne(params, Assignment(given, log), paramValue, FillFirst)
  {
    if paramValue.name.Some? {
      var name := paramValue.name.value;
      var isValid := false;
      var k := 0;
      while k < |params| && !isValid
        invariant 0 <= k <= |params|
        invariant isValid <==> name in Names(params)[..k]
      {
        if name == params[k].name {
          isValid := true;
        }
        assert Names(params)[..k + 1] == Names(params)[..k] + [params[k].name];
        k := k + 1;
      }
      if isValid {
        assert name in Names(params);
      } else {
        assert Names(params)[..k] == Names(params);
      }
      if !isValid {
        a := Assignment(given, log + [IgnoringUnknownParameter(name)]);
      } else if name in given {
        a := Duplicate(log);
      } else {
        a := Assignment(given[name := paramValue.value], log);
      }
    } else {
      var target := FirstUnassignedIndex(params, given);
      if target == |params| {
        a := Assignment(given, log + [IgnoringParameter(paramValue.value)]);
      } else {
        a := Assignment(given[params[target].name := paramValue.value], log);
      }
    }
  }

  /** The first parameter missing from the dictionary, or the parameter
      count when there is none. */
  method FirstUnassignedIndex(params: seq<ParamSpec>, m: map<string, string>) returns (k: nat)
    ensures k <= |params|
    ensures k == |params| <==> FirstUnassigned(params, m).None?
    ensures k < |params| ==> FirstUnassigned(params, m) == Some(k)
  {
    k := 0;
    while k < |params| && params[k].name in m
      invariant 0 <= k <= |params|
      invariant forall j :: 0 <= j < k ==> params[j].name in m
    {
      k := k + 1;
    }
    FirstUnassignedUnique(params, m, k);
  }

  lemma FirstUnassignedUnique(params: seq<ParamSpec>, m: map<string, string>, k: nat)
    requires k <= |params| && forall j :: 0 <= j < k ==> params[j].name in m
    requires k < |params| ==> params[k].name !in m
    ensures k == |params| <==> FirstUnassigned(params, m).None?
    ensures k < |params| ==> FirstUnassigned(params, m) == Some(k)
  {
    var r := FirstUnassigned(params, m);
    if r.Some? && r.value != k {
      assert false;
    }
  }

  /** The messages for the positional values from number `n` on. */
  function Ignored(args: seq<string>, n: nat): (r: seq<Message>)
    ensures |r| == if |args| <= n then 0 else |args| - n
    ensures forall j :: 0 <= j < |r| ==> r[j] == IgnoringParameter(args[n + j])
  {
    if |args| <= n then [] else seq(|args| - n, j requires 0 <= j < |args| - n => IgnoringParameter(args[n + j]))
  }

  lemma IgnoredSnoc(args: seq<string>, n: nat)
    requires args != []
    ensures Ignored(args, n) == Ignored(args[..|args| - 1], n) + (if |args| - 1 < n then [] else [IgnoringParameter(args[|args| - 1])])
  {
    var r := Ignored(args, n);
    var r' := Ignored(args[..|args| - 1], n);
    if |args| - 1 >= n {
      assert r == r' + [IgnoringParameter(args[|args| - 1])];
    }
  }

  lemma PositionalPrefix(args: seq<string>)
    requires args != []
    ensures Positional(args)[..|args| - 1] == Positional(args[..|args| - 1])
    ensures Positional(args)[|args| - 1] == ParamValue(None, args[|args| - 1])
  {
  }

  /** The first `|args|` parameters, and no others, have the values given by
      position, in order. */
  predicate FilledInOrder(params: seq<ParamSpec>, m: map<string, string>, args: seq<string>)
  {
    (forall k :: 0 <= k < |params| ==> (params[k].name in m <==> k < |args|))
    && (forall k :: 0 <= k < |params| && k < |args| ==> m[params[k].name] == args[k])
    && (forall x :: x in m ==> x in Names(params))
  }

  /** The next parameter in declared order takes the next value. */
  lemma FilledExtend(params: seq<ParamSpec>, m: map<string, string>, args: seq<string>)
    requires DistinctNames(params) && args != [] && |args| - 1 < |params|
    requires FilledInOrder(params, m, args[..|args| - 1])
    ensures FilledInOrder(params, m[params[|args| - 1].name := args[|args| - 1]], args)
  {
    var n := |args| - 1;
    var m' := m[params[n].name := args[n]];
    assert params[n].name in Names(params) by { assert Names(params)[n] == params[n].name; }
    forall k | 0 <= k < |params| && k < |args|
      ensures m'[params[k].name] == args[k]
    {
      if k < n {
        assert params[k].name != params[n].name;
        assert args[..n][k] == args[k];
      }
    }
    forall k | 0 <= k < |params|
      ensures params[k].name in m' <==> k < |args|
    {
      if k > n {
        assert params[k].name != params[n].name;
      }
    }
  }

  /** One more value given by position, under the corrected rule. */
  lemma FillFirstStep(params: seq<ParamSpec>, m: map<string, string>, args: seq<string>, log: seq<Message>)
    requires DistinctNames(params) && args != [] && FilledInOrder(params, m, args[..|args| - 1])
    ensures var a := AssignOne(params, Assignment(m, log), ParamValue(None, args[|args| - 1]), FillFirst);
      a.Assignment? && FilledInOrder(params, a.values, args)
      && a.log == log + (if |args| - 1 < |params| then [] else [IgnoringParameter(args[|args| - 1])])
  {
    var n := |args| - 1;
    var v := args[n];
    if n < |params| {
      FirstUnassignedUnique(params, m, n);
      assert !AllAssigned(params, m);
      FilledExtend(params, m, args);
    } else {
      assert AllAssigned(params, m);
    }
  }

  /** With the corrected rule, values given by position fill the parameters
      in their declared order; once every parameter has a value, each further
      one is logged and ignored. */
  lemma {:induction false} PositionalFillsInOrder(params: seq<ParamSpec>, args: seq<string>)
    requires DistinctNames(params)
    ensures AssignAll(params, Positional(args), FillFirst).Assignment?
    ensures FilledInOrder(params, AssignAll(params, Positional(args), FillFirst).values, args)
    ensures AssignAll(params, Positional(args), FillFirst).log == Ignored(args, |params|)
  {
    if args != [] {
      var init := args[..|args| - 1];
      PositionalPrefix(args);
      PositionalFillsInOrder(params, init);
      IgnoredSnoc(args, |params|);
      var a := AssignAll(params, Positional(init), FillFirst);
      FillFirstStep(params, a.values, args, a.log);
    }
  }

  /** As written, every parameter still missing gets the value. */
  lemma {:induction false} FillUnassignedAll(params: seq<ParamSpec>, m: map<string, string>, v: string)
    ensures var r := FillUnassigned(params, m, v);
      (forall k :: 0 <= k < |params| ==> (params[k].name in r
        && r[params[k].name] == if params[k].name in m then m[params[k].name] else v))
      && (forall x :: x in m ==> x in r && r[x] == m[x])
      && (forall x :: x in r && x !in m ==> r[x] == v)
  {
    if params != [] {
      var init := params[..|params| - 1];
      FillUnassignedAll(init, m, v);
      var r := FillUnassigned(init, m, v);
      var name := params[|params| - 1].name;
      assert FillUnassigned(params, m, v) == if name in r then r else r[name := v];
      forall k | 0 <= k < |init| ensures params[k] == init[k] { }
    }
  }

  /** As written, the first value given by position goes to every parameter,
      and every later one is logged and ignored. */
  lemma {:induction false} PositionalFillsAllAsWritten(params: seq<ParamSpec>, args: seq<string>)
    requires params != [] && args != []
    ensures AssignAll(params, Positional(args), FillEvery).Assignment?
    ensures var m := AssignAll(params, Positional(args), FillEvery).values;
      forall k :: 0 <= k < |params| ==> params[k].name in m && m[params[k].name] == args[0]
    ensures AssignAll(params, Positional(args), FillEvery).log == Ignored(args, 1)
  {
    var init := args[..|args| - 1];
    var v := args[|args| - 1];
    PositionalPrefix(args);
    IgnoredSnoc(args, 1);
    if init == [] {
      assert AssignAll(params, Positional(init), FillEvery) == Assignment(map[], []);
      assert !AllAssigned(params, map[]) by { var e: map<string, string> := map[]; assert params[0].name !in e; }
      FillUnassignedAll(params, map[], v);
    } else {
      PositionalFillsAllAsWritten(params, init);
      var a := AssignAll(params, Positional(init), FillEvery);
      assert AllAssigned(params, a.values);
    }
  }

  /** A value named after a parameter that already has one, even from a
      value given by position, makes `Dictionary.Add` throw. */
  lemma NamedAfterPositional(params: seq<ParamSpec>, v: string, w: string, rule: PositionalRule)
    requires params != []
    ensures AssignAll(params, [ParamValue(None, v), ParamValue(Some(params[0].name), w)], rule) == Duplicate([])
  {
    var vs := [ParamValue(None, v), ParamValue(Some(params[0].name), w)];
    var e: map<string, string> := map[];
    assert vs[..1] == [ParamValue(None, v)];
    assert vs[..1][..0] == [];
    assert !AllAssigned(params, e) by { assert params[0].name !in e; }
    assert FirstUnassigned(params, e) == Some(0);
    FillUnassignedAll(params, e, v);
    var one := [ParamValue(None, v)];
    assert vs[..1] == one && one[..0] == [];
    var a1 := AssignAll(params, one, rule);
    assert a1 == AssignOne(params, AssignAll(params, [], rule), one[0], rule);
    assert a1.Assignment? && params[0].name in a1.values;
    assert AssignAll(params, vs, rule) == AssignOne(params, a1, vs[1], rule);
    assert params[0].name in Names(params) by { assert Names(params)[0] == params[0].name; }
  }

  /** Values named after no parameter are each logged and leave the
      dictionary as it is. */
  lemma {:induction false} UnknownNamesIgnored(params: seq<ParamSpec>, values: seq<ParamValue>, rule: PositionalRule)
    requires forall k :: 0 <= k < |values| ==> values[k].name.Some? && values[k].name.value !in Names(params)
    ensures AssignAll(params, values, rule)
      == Assignment(map[], seq(|values|, k requires 0 <= k < |values| => IgnoringUnknownParameter(values[k].name.value)))
  {
    if values != [] {
      var init := values[..|values| - 1];
      UnknownNamesIgnored(params, init, rule);
      var l := seq(|values|, k requires 0 <= k < |values| => IgnoringUnknownParameter(values[k].name.value));
      var l' := seq(|init|, k requires 0 <= k < |init| => IgnoringUnknownParameter(init[k].name.value));
      assert l == l' + [IgnoringUnknownParameter(values[|values| - 1].name.value)];
    }
  }

  // ---------------------------------------------------------------------------
  // Defaults and conversions
  // ---------------------------------------------------------------------------

  /** The arguments for the handler, or the reason the parser stopped. */
  datatype Binding = Bound(args: seq<Arg>) | Missing(name: string) | BadValue(msg: Message)

  /** Convert the value of parameter number `i`. */
  function Convert(p: ParamSpec, s: string, i: nat, parsers: Parsers): Result<Arg, Message>
  {
    match p.ptype
    case IntParam => (match TryParseInt(s) case Some(n) => Ok(IntArg(n)) case None => Err(ExpectsInteger(i)))
    case DoubleParam => (match parsers.parseDouble(s) case Some(x) => Ok(RealArg(x)) case None => Err(ExpectsFloatingPoint(i)))
    case DecimalParam => (match parsers.parseDecimal(s) case Some(x) => Ok(RealArg(x)) case None => Err(ExpectsDecimal(i)))
    case StringParam => Ok(StringArg(s))
  }

  /** Parameters from number `i` on, with the dictionary `m` and the
      arguments `acc` of the parameters before it. */
  function BindFrom(params: seq<ParamSpec>, i: nat, m: map<string, string>, acc: seq<Arg>, parsers: Parsers): Binding
    requires i <= |params|
    decreases |params| - i
  {
    if i == |params| then Bound(acc)
    else
      var p := params[i];
      if p.name !in m && p.defaultValue == [] then Missing(p.name)
      else
        var m' := if p.name in m then m else m[p.name := p.defaultValue];
        match Convert(p, m'[p.name], i, parsers)
        case Err(msg) => BadValue(msg)
        case Ok(arg) => BindFrom(params, i + 1, m', acc + [arg], parsers)
  }

  /** The loop the generator unrolls over the parameters. */
  method BindParams(params: seq<ParamSpec>, given: map<string, string>, parsers: Parsers) returns (b: Binding)
    ensures b == BindFrom(params, 0, given, [], parsers)
  {
    var m := given;
    var args: seq<Arg> := [];
    var i := 0;
    while i < |params|
      invariant 0 <= i <= |params|
      invariant BindFrom(params, 0, given, [], parsers) == BindFrom(params, i, m, args, parsers)
    {
      var p := params[i];
      if p.name !in m {
        if p.defaultValue == [] {
          return Missing(p.name);
        }
        m := m[p.name := p.defaultValue];
      }
      var c := Convert(p, m[p.name], i, parsers);
      if c.Err? {
        return BadValue(c.error);
      }
      args := args + [c.value];
      i := i + 1;
    }
    b := Bound(args);
  }

  /** The text a parameter ends up with: its value, else its default, else
      none. */
  function Lookup(m: map<string, string>, p: ParamSpec): (r: Option<string>)
    ensures r.None? <==> p.name !in m && p.defaultValue == []
  {
    if p.name in m then Some(m[p.name]) else if p.defaultValue == [] then None else Some(p.defaultValue)
  }

  /** A reference definition of the conversions of the first `n` parameters
      that looks each one up in the assigned values, without the dictionary
      updates of the loop. */
  function BindRef(params: seq<ParamSpec>, n: nat, m: map<string, string>, parsers: Parsers): Binding
    requires n <= |params|
  {
    if n == 0 then Bound([])
    else match BindRef(params, n - 1, m, parsers)
      case Bound(args) =>
        (match Lookup(m, params[n - 1])
         case None => Missing(params[n - 1].name)
         case Some(text) =>
           match Convert(params[n - 1], text, n - 1, parsers)
           case Err(msg) => BadValue(msg)
           case Ok(arg) => Bound(args + [arg]))
      case other => other
  }

  /** Parameter `k` has a text that converts. */
  predicate Converts(params: seq<ParamSpec>, k: nat, m: map<string, string>, parsers: Parsers)
    requires k < |params|
  {
    Lookup(m, params[k]).Some? && Convert(params[k], Lookup(m, params[k]).value, k, parsers).Ok?
  }

  /** The converted argument of parameter `k`. */
  function ConvertedArg(params: seq<ParamSpec>, k: nat, m: map<string, string>, parsers: Parsers): Arg
    requires k < |params| && Converts(params, k, m, parsers)
  {
    Convert(params[k], Lookup(m, params[k]).value, k, parsers).value
  }

  lemma {:induction false} BindRefSticks(params: seq<ParamSpec>, i: nat, n: nat, m: map<string, string>, parsers: Parsers)
    requires i <= n <= |params| && !BindRef(params, i, m, parsers).Bound?
    ensures BindRef(params, n, m, parsers) == BindRef(params, i, m, parsers)
    decreases n - i
  {
    if i < n {
      BindRefSticks(params, i, n - 1, m, parsers);
    }
  }

  /** One more parameter of the reference definition. */
  lemma BindRefNext(params: seq<ParamSpec>, i: nat, m: map<string, string>, acc: seq<Arg>, parsers: Parsers)
    requires i < |params| && BindRef(params, i, m, parsers) == Bound(acc)
    ensures Lookup(m, params[i]).None? ==> !BindRef(params, i + 1, m, parsers).Bound?
    ensures Lookup(m, params[i]).Some? ==>
      match Convert(params[i], Lookup(m, params[i]).value, i, parsers)
      case Err(_) => !BindRef(params, i + 1, m, parsers).Bound?
      case Ok(arg) => BindRef(params, i + 1, m, parsers) == Bound(acc + [arg])
  {
  }

  /** The loop, which adds each default to the dictionary before reading it
      back, converts the same texts as the reference definition. */
  lemma {:induction false} BindFromRef(params: seq<ParamSpec>, i: nat, m': map<string, string>, m: map<string, string>,
                                       acc: seq<Arg>, parsers: Parsers)
    requires DistinctNames(params) && i <= |params| && BindRef(params, i, m, parsers) == Bound(acc)
    requires forall j :: i <= j < |params| ==> Lookup(m', params[j]) == Lookup(m, params[j])
    ensures BindFrom(params, i, m', acc, parsers) == BindRef(params, |params|, m, parsers)
    decreases |params| - i
  {
    if i < |params| {
      var p := params[i];
      BindRefNext(params, i, m, acc, parsers);
      if p.name !in m' && p.defaultValue == [] {
        BindRefSticks(params, i + 1, |params|, m, parsers);
      } else {
        var m'' := if p.name in m' then m' else m'[p.name := p.defaultValue];
        assert m''[p.name] == Lookup(m, p).value;
        match Convert(p, m''[p.name], i, parsers)
        case Err(msg) =>
          BindRefSticks(params, i + 1, |params|, m, parsers);
        case Ok(arg) =>
          forall j | i + 1 <= j < |params| ensures Lookup(m'', params[j]) == Lookup(m, params[j]) {
            assert params[j].name != p.name;
          }
          BindFromRef(params, i + 1, m'', m, acc + [arg], parsers);
      }
    }
  }

  /** With distinct parameter names, the loop over the parameters is the
      reference definition. */
  lemma BindMatchesReference(params: seq<ParamSpec>, m: map<string, string>, parsers: Parsers)
    requires DistinctNames(params)
    ensures BindFrom(params, 0, m, [], parsers) == BindRef(params, |params|, m, parsers)
  {
    BindFromRef(params, 0, m, m, [], parsers);
  }

  /** The handler is called exactly when every parameter has a text that
      converts, and then with the converted texts in declared order. */
  lemma {:induction false} BindRefBound(params: seq<ParamSpec>, n: nat, m: map<string, string>, parsers: Parsers)
    requires n <= |params|
    ensures BindRef(params, n, m, parsers).Bound? <==> forall k :: 0 <= k < n ==> Converts(params, k, m, parsers)
    ensures BindRef(params, n, m, parsers).Bound? ==>
      var args := BindRef(params, n, m, parsers).args;
      |args| == n && forall k :: 0 <= k < n ==> Converts(params, k, m, parsers) && args[k] == ConvertedArg(params, k, m, parsers)
  {
    if n > 0 {
      BindRefBound(params, n - 1, m, parsers);
      var r := BindRef(params, n - 1, m, parsers);
      if r.Bound? && Converts(params, n - 1, m, parsers) {
        var args := r.args + [ConvertedArg(params, n - 1, m, parsers)];
        assert BindRef(params, n, m, parsers) == Bound(args);
        forall k | 0 <= k < n - 1 ensures args[k] == r.args[k] { }
      }
    }
  }

  /** The first parameter without a text, or whose text does not convert,
      stops the parser with its message. */
  lemma {:induction false} BindRefFirstFailure(params: seq<ParamSpec>, k: nat, n: nat, m: map<string, string>, parsers: Parsers)
    requires k < n <= |params| && !Converts(params, k, m, parsers)
    requires forall j :: 0 <= j < k ==> Converts(params, j, m, parsers)
    ensures BindRef(params, n, m, parsers)
      == if Lookup(m, params[k]).None? then Missing(params[k].name)
         else BadValue(Convert(params[k], Lookup(m, params[k]).value, k, parsers).error)
  {
    BindRefBound(params, k, m, parsers);
    BindRefSticks(params, k + 1, n, m, parsers);
  }

  // ---------------------------------------------------------------------------
  // The whole line
  // ---------------------------------------------------------------------------

  /** The `switch` over the command names: the first record of that name. */
  function FindCommand(specs: seq<CommandSpec>, cmd: string): (r: Option<nat>)
    ensures r.Some? ==> (r.value < |specs| && specs[r.value].cmd == cmd
      && forall k :: 0 <= k < r.value ==> specs[k].cmd != cmd)
    ensures r.None? ==> forall k :: 0 <= k < |specs| ==> specs[k].cmd != cmd
  {
    if specs == [] then None
    else if specs[0].cmd == cmd then Some(0)
    else match FindCommand(specs[1..], cmd)
      case None => None
      case Some(k) => Some(k + 1)
  }

  /** What the console does with a line. */
  function Execute(specs: seq<CommandSpec>, line: string, parsers: Parsers,
                   quote: QuoteRule, positional: PositionalRule): Run
  {
    match Tokenize(line, quote)
    case UnexpectedEquals => Run([UnexpectedCharacter], Rejected)
    case Tokens(cmd, values) =>
      if cmd.None? || FindCommand(specs, cmd.value).None? then Run([UnknownCommand], Rejected)
      else
        var spec := specs[FindCommand(specs, cmd.value).value];
        match AssignAll(spec.params, values, positional)
        case Duplicate(log) => Run(log, DuplicateParameter)
        case Assignment(m, log) =>
          Report(spec.cmd, log, BindFrom(spec.params, 0, m, [], parsers))
  }

  /** The end of a line whose values were assigned with the log `log`. */
  function Report(cmd: string, log: seq<Message>, b: Binding): Run
  {
    match b
    case Bound(args) => Run(log, Handle(cmd, args))
    case Missing(name) => Run(log + [MissingParameter(name)], Rejected)
    case BadValue(msg) => Run(log + [msg], Rejected)
  }

  /** The console as written. */
  function ExecuteAsWritten(specs: seq<CommandSpec>, line: string, parsers: Parsers): Run
  {
    Execute(specs, line, parsers, ReopenQuote, FillEvery)
  }

  /** `ParseCommand`, with the closing quote and the positional rule
      corrected. */
  method ParseCommand(specs: seq<CommandSpec>, rawCmd: string, parsers: Parsers) returns (run: Run)
    ensures run == Execute(specs, rawCmd, parsers, CloseQuote, FillFirst)
  {
    var tokens := ParseTokens(rawCmd);
    if tokens.UnexpectedEquals? {
      return Run([UnexpectedCharacter], Rejected);
    }
    var found := -1;
    if tokens.cmd.Some? {
      var k := 0;
      while k < |specs| && found < 0
        invariant 0 <= k <= |specs|
        invariant found < 0 ==> forall j :: 0 <= j < k ==> specs[j].cmd != tokens.cmd.value
        invariant found >= 0 ==> FindCommand(specs, tokens.cmd.value) == Some(found)
      {
        if specs[k].cmd == tokens.cmd.value {
          found := k;
          FindCommandUnique(specs, tokens.cmd.value, k);
        }
        k := k + 1;
      }
    }
    if found < 0 {
      return Run([UnknownCommand], Rejected);
    }
    var spec := specs[found];
    var a := AssignParams(spec.params, tokens.values);
    if a.Duplicate? {
      return Run(a.log, DuplicateParameter);
    }
    var b := BindParams(spec.params, a.values, parsers);
    match b
    case Bound(args) => run := Run(a.log, Handle(spec.cmd, args));
    case Missing(name) => run := Run(a.log + [MissingParameter(name)], Rejected);
    case BadValue(msg) => run := Run(a.log + [msg], Rejected);
  }

  // ---------------------------------------------------------------------------
  // Whole lines of words
  // ---------------------------------------------------------------------------

  /** An empty line, or a first word that names no command, is an unknown
      command. */
  lemma ExecuteUnknownCommand(specs: seq<CommandSpec>, cmd: string, args: seq<string>, parsers: Parsers,
                              quote: QuoteRule, positional: PositionalRule)
    requires Plain(cmd) && forall k :: 0 <= k < |args| ==> Plain(args[k])
    requires (if args == [] then cmd else args[|args| - 1]) != []
    requires FindCommand(specs, cmd).None?
    ensures Execute(specs, Line(cmd, args), parsers, quote, positional) == Run([UnknownCommand], Rejected)
    ensures Execute(specs, [], parsers, quote, positional) == Run([UnknownCommand], Rejected)
  {
    TokenizeWords(cmd, args, quote);
  }

  /** A misplaced '=' is reported and nothing is run. */
  lemma ExecuteMisplacedEquals(specs: seq<CommandSpec>, cmd: string, rest: string, parsers: Parsers,
                               quote: QuoteRule, positional: PositionalRule)
    requires Plain(cmd)
    ensures Execute(specs, cmd + ['='] + rest, parsers, quote, positional) == Run([UnexpectedCharacter], Rejected)
  {
    TokenizeMisplacedEquals(cmd, rest, quote);
  }

  /** A line of words for a known command, with the corrected rule: the
      words after the command are the texts of the first parameters, and the
      rest have their defaults. */
  lemma ExecuteWordsBinding(specs: seq<CommandSpec>, i: nat, args: seq<string>, parsers: Parsers, quote: QuoteRule)
    returns (m: map<string, string>)
    requires i < |specs| && FindCommand(specs, specs[i].cmd) == Some(i) && DistinctNames(specs[i].params)
    requires Plain(specs[i].cmd) && forall k :: 0 <= k < |args| ==> Plain(args[k])
    requires (if args == [] then specs[i].cmd else args[|args| - 1]) != []
    ensures forall k :: 0 <= k < |specs[i].params| ==>
      Lookup(m, specs[i].params[k]) == if k < |args| then Some(args[k]) else Lookup(map[], specs[i].params[k])
    ensures Execute(specs, Line(specs[i].cmd, args), parsers, quote, FillFirst)
      == Report(specs[i].cmd, Ignored(args, |specs[i].params|), BindRef(specs[i].params, |specs[i].params|, m, parsers))
  {
    var params := specs[i].params;
    TokenizeWords(specs[i].cmd, args, quote);
    PositionalFillsInOrder(params, args);
    m := AssignAll(params, Positional(args), FillFirst).values;
    ExecuteKnown(specs, i, Line(specs[i].cmd, args), Positional(args), parsers, quote, FillFirst);
    BindMatchesReference(params, m, parsers);
  }

  /** A line whose first word names a known command and whose values are
      assigned without a duplicate is reported from the binding loop. */
  lemma ExecuteKnown(specs: seq<CommandSpec>, i: nat, line: string, values: seq<ParamValue>, parsers: Parsers,
                     quote: QuoteRule, positional: PositionalRule)
    requires i < |specs| && FindCommand(specs, specs[i].cmd) == Some(i)
    requires Tokenize(line, quote) == Tokens(Some(specs[i].cmd), values)
    requires AssignAll(specs[i].params, values, positional).Assignment?
    ensures var a := AssignAll(specs[i].params, values, positional);
      Execute(specs, line, parsers, quote, positional)
        == Report(specs[i].cmd, a.log, BindFrom(specs[i].params, 0, a.values, [], parsers))
  {
  }

  /** The texts converted to the types of the parameters, in order. */
  function ConvertAll(params: seq<ParamSpec>, args: seq<string>, parsers: Parsers): (r: seq<Arg>)
    requires |args| >= |params| && forall k :: 0 <= k < |params| ==> Convert(params[k], args[k], k, parsers).Ok?
    ensures |r| == |params| && forall k :: 0 <= k < |params| ==> r[k] == Convert(params[k], args[k], k, parsers).value
  {
    seq(|params|, k requires 0 <= k < |params| => Convert(params[k], args[k], k, parsers).value)
  }

  /** A known command given a text for each of its parameters, each of which
      converts, is run with the converted texts; extra words are logged and
      ignored. */
  lemma ExecuteWordsHandled(specs: seq<CommandSpec>, i: nat, args: seq<string>, parsers: Parsers, quote: QuoteRule)
    requires i < |specs| && FindCommand(specs, specs[i].cmd) == Some(i) && DistinctNames(specs[i].params)
    requires Plain(specs[i].cmd) && forall k :: 0 <= k < |args| ==> Plain(args[k])
    requires (if args == [] then specs[i].cmd else args[|args| - 1]) != []
    requires |args| >= |specs[i].params|
    requires forall k :: 0 <= k < |specs[i].params| ==> Convert(specs[i].params[k], args[k], k, parsers).Ok?
    ensures Execute(specs, Line(specs[i].cmd, args), parsers, quote, FillFirst)
      == Run(Ignored(args, |specs[i].params|), Handle(specs[i].cmd, ConvertAll(specs[i].params, args, parsers)))
  {
    var params := specs[i].params;
    var m := ExecuteWordsBinding(specs, i, args, parsers, quote);
    var want := ConvertAll(params, args, parsers);
    forall k | 0 <= k < |params|
      ensures Converts(params, k, m, parsers) && ConvertedArg(params, k, m, parsers) == want[k]
    {
      assert Lookup(m, params[k]) == Some(args[k]);
    }
    BindRefBound(params, |params|, m, parsers);
    var b := BindRef(params, |params|, m, parsers);
    assert b == Bound(want);
  }

  /** A known command given fewer texts than parameters stops at the first
      parameter without a text or a default, with "missing parameter". */
  lemma ExecuteWordsMissing(specs: seq<CommandSpec>, i: nat, args: seq<string>, parsers: Parsers, quote: QuoteRule)
    requires i < |specs| && FindCommand(specs, specs[i].cmd) == Some(i) && DistinctNames(specs[i].params)
    requires Plain(specs[i].cmd) && forall k :: 0 <= k < |args| ==> Plain(args[k])
    requires (if args == [] then specs[i].cmd else args[|args| - 1]) != []
    requires |args| < |specs[i].params| && specs[i].params[|args|].defaultValue == []
    requires forall k :: 0 <= k < |args| ==> Convert(specs[i].params[k], args[k], k, parsers).Ok?
    ensures Execute(specs, Line(specs[i].cmd, args), parsers, quote, FillFirst)
      == Run([MissingParameter(specs[i].params[|args|].name)], Rejected)
  {
    var params := specs[i].params;
    var m := ExecuteWordsBinding(specs, i, args, parsers, quote);
    BindRefFirstFailure(params, |args|, |params|, m, parsers);
  }

  /** A text for an `int` parameter that `int.TryParse` refuses stops the
      parser with "expects integer for argument #k". */
  lemma ExecuteWordsBadInteger(specs: seq<CommandSpec>, i: nat, args: seq<string>, k: nat, parsers: Parsers, quote: QuoteRule)
    requires i < |specs| && FindCommand(specs, specs[i].cmd) == Some(i) && DistinctNames(specs[i].params)
    requires Plain(specs[i].cmd) && forall j :: 0 <= j < |args| ==> Plain(args[j])
    requires (if args == [] then specs[i].cmd else args[|args| - 1]) != []
    requires k < |args| <= |specs[i].params|
    requires specs[i].params[k].ptype == IntParam && TryParseInt(args[k]).None?
    requires forall j :: 0 <= j < k ==> Convert(specs[i].params[j], args[j], j, parsers).Ok?
    ensures Execute(specs, Line(specs[i].cmd, args), parsers, quote, FillFirst) == Run([ExpectsInteger(k)], Rejected)
  {
    var params := specs[i].params;
    var m := ExecuteWordsBinding(specs, i, args, parsers, quote);
    BindRefFirstFailure(params, k, |params|, m, parsers);
  }

  lemma FindCommandUnique(specs: seq<CommandSpec>, cmd: string, k: nat)
    requires k < |specs| && specs[k].cmd == cmd
    requires forall j :: 0 <= j < k ==> specs[j].cmd != cmd
    ensures FindCommand(specs, cmd) == Some(k)
  {
    var r := FindCommand(specs, cmd);
    if r.None? || r.value != k {
      assert false;
    }
  }

  // ---------------------------------------------------------------------------
  // The command list and the help texts
  // ---------------------------------------------------------------------------

  /** `GetCommandList`: the names of the commands, in record order, with a
      space before every name but the first. */
  method GetCommandList(specs: seq<CommandSpec>) returns (result: string)
    ensures result == if specs == [] then [] else JoinWith(CommandNames(specs), ' ')
  {
    result := [];
    for i := 0 to |specs|
      invariant result == if i == 0 then [] else JoinWith(CommandNames(specs[..i]), ' ')
    {
      JoinedStep(specs, i);
      if i != 0 {
        result := result + " ";
      }
      result := result + specs[i].cmd;
    }
    assert specs[..|specs|] == specs;
  }

  /** One more name at the end of the command list. */
  lemma JoinedStep(specs: seq<CommandSpec>, i: nat)
    requires i < |specs|
    ensures JoinWith(CommandNames(specs[..i + 1]), ' ')
      == if i == 0 then specs[0].cmd else JoinWith(CommandNames(specs[..i]), ' ') + " " + specs[i].cmd
  {
    var ws := CommandNames(specs[..i + 1]);
    assert specs[..i + 1][..i] == specs[..i];
    assert ws[..i] == CommandNames(specs[..i]);
  }

  /** The names of the commands, in record order. */
  function CommandNames(specs: seq<CommandSpec>): (r: seq<string>)
    ensures |r| == |specs| && forall k :: 0 <= k < |specs| ==> r[k] == specs[k].cmd
  {
    if specs == [] then [] else CommandNames(specs[..|specs| - 1]) + [specs[|specs| - 1].cmd]
  }

  /** When no command name holds a space, the command list cut at its
      spaces gives back the names, in order. */
  lemma CommandListSplits(specs: seq<CommandSpec>)
    requires specs != []
    requires forall k :: 0 <= k < |specs| ==> ' ' !in specs[k].cmd
    ensures SplitOn(JoinWith(CommandNames(specs), ' '), ' ') == CommandNames(specs)
  {
    SplitJoinWords(CommandNames(specs), ' ');
  }

  /** `GetHelp(cmd)`: the help text of the first command of that name, compared
      record by record. */
  function GetHelp(specs: seq<CommandSpec>, cmd: string): (r: string)
    ensures FindCommand(specs, cmd).Some? ==> r == specs[FindCommand(specs, cmd).value].help
    ensures FindCommand(specs, cmd).None? ==> r == "unknown command " + cmd
  {
    if specs == [] then "unknown command " + cmd
    else if specs[0].cmd == cmd then specs[0].help
    else GetHelp(specs[1..], cmd)
  }
}
