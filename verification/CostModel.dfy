/** The cost model a params header prints (loop/dse.py), read back with the header's own values (loop/constraints.py):
    every formula is printed in macro names, and the evaluator costs a candidate in knob names. */
module CostModel {
  import opened Header
  import opened CandidateKey
  import opened Formula

  /** What a parsed literal is to a formula. How Python reads a decimal is an argument. */
  function BindingOf(decimal: string -> real, v: Literal): Binding {
    match v
    case Flag(_) => NotNumber
    case Integer(n) => Number(Int(n))
    case Decimal(text) => Number(Float(decimal(text)))
  }

  function EnvOf(decimal: string -> real, values: map<string, Literal>): Env {
    map x | x in values :: BindingOf(decimal, values[x])
  }

  /** One side's macros by knob name. */
  function SideNames(knobs: seq<KnobSpec>, host: bool): map<string, string> {
    if knobs == [] then map[]
    else
      var last := knobs[|knobs| - 1];
      var front := SideNames(knobs[..|knobs| - 1], host);
      if last.host == host then front[last.name := last.macro] else front
  }

  /** `names` of `params_header`: the parameters' macros, then the host knobs'. */
  function Rename(knobs: seq<KnobSpec>): map<string, string> {
    SideNames(knobs, false) + SideNames(knobs, true)
  }

  /** Of each side, no two knobs share a name. */
  ghost predicate DistinctNames(knobs: seq<KnobSpec>) {
    forall i, j :: 0 <= i < j < |knobs| && knobs[i].host == knobs[j].host ==> knobs[i].name != knobs[j].name
  }

  lemma {:induction false} SideNamesAre(knobs: seq<KnobSpec>, host: bool)
    requires DistinctNames(knobs)
    ensures forall n :: n in SideNames(knobs, host) ==>
              exists i :: 0 <= i < |knobs| && knobs[i].host == host && knobs[i].name == n
    ensures forall i :: 0 <= i < |knobs| && knobs[i].host == host ==>
              knobs[i].name in SideNames(knobs, host) && SideNames(knobs, host)[knobs[i].name] == knobs[i].macro
  {
    if knobs != [] {
      SideNamesAre(knobs[..|knobs| - 1], host);
    }
  }

  /** One side's values are the parsed values of its macros. */
  lemma NamedIsParsed(p: Parsed, knobs: seq<KnobSpec>, host: bool, n: string)
    requires DistinctNames(knobs)
    ensures n in Named(p, knobs, host) <==> n in SideNames(knobs, host) && SideNames(knobs, host)[n] in p.values
    ensures n in Named(p, knobs, host) ==> Named(p, knobs, host)[n] == p.values[SideNames(knobs, host)[n]]
  {
    hide SideNames, Named;
    SideNamesAre(knobs, host);
  }

  /** A name both sides use reads the same on both. */
  ghost predicate SharedNameAgrees(decimal: string -> real, p: Parsed, knobs: seq<KnobSpec>, n: string)
    requires n in Named(p, knobs, false)
  {
    n in SideNames(knobs, true) ==>
      n in Named(p, knobs, true) &&
      BindingOf(decimal, Named(p, knobs, false)[n]) == BindingOf(decimal, Named(p, knobs, true)[n])
  }

  ghost predicate SharedNamesAgree(decimal: string -> real, p: Parsed, knobs: seq<KnobSpec>) {
    forall n :: n in Named(p, knobs, false) ==> SharedNameAgrees(decimal, p, knobs, n)
  }

  /** The shared names a formula can read. */
  ghost predicate SharedNumbersAgree(decimal: string -> real, p: Parsed, knobs: seq<KnobSpec>) {
    forall n :: n in Named(p, knobs, false) && BindingOf(decimal, Named(p, knobs, false)[n]).Number? ==>
                  SharedNameAgrees(decimal, p, knobs, n)
  }

  /** How one knob's value reaches a printed formula. */
  lemma OneMacro(p: Parsed, knobs: seq<KnobSpec>, host: bool, n: string)
    requires DistinctNames(knobs) && n in Named(p, knobs, host)
    ensures n in Rename(knobs)
    ensures var value := Named(p, knobs, host)[n];
            var macro := Rename(knobs)[n];
            host || n !in SideNames(knobs, true) ==> macro in p.values && p.values[macro] == value
    ensures n in SideNames(knobs, true) ==> (Rename(knobs)[n] in p.values <==> n in Named(p, knobs, true))
    ensures n in Named(p, knobs, true) ==> p.values[Rename(knobs)[n]] == Named(p, knobs, true)[n]
  {
    hide SideNames, Named;
    NamedIsParsed(p, knobs, host, n);
    NamedIsParsed(p, knobs, true, n);
  }

  lemma HostMacrosHold(decimal: string -> real, p: Parsed, knobs: seq<KnobSpec>)
    requires DistinctNames(knobs)
    ensures MacrosHold(Rename(knobs), EnvOf(decimal, Named(p, knobs, true)), EnvOf(decimal, p.values))
  {
    hide SideNames, Named, BindingOf, Rename, DistinctNames;
    forall n | n in Named(p, knobs, true)
      ensures n in Rename(knobs) && Rename(knobs)[n] in p.values && p.values[Rename(knobs)[n]] == Named(p, knobs, true)[n]
    {
      OneMacro(p, knobs, true, n);
    }
  }

  /** The values `knob_values` reads are the parsed values of the macros the printed formulas name, exactly when names
      the spec and the plan share stand for equal values. */
  lemma ParsedMacrosHold(decimal: string -> real, p: Parsed, knobs: seq<KnobSpec>)
    requires DistinctNames(knobs)
    ensures MacrosHold(Rename(knobs), EnvOf(decimal, Named(p, knobs, true)), EnvOf(decimal, p.values))
    ensures MacrosHold(Rename(knobs), EnvOf(decimal, Named(p, knobs, false)), EnvOf(decimal, p.values)) <==>
            SharedNamesAgree(decimal, p, knobs)
  {
    hide SideNames, Named, BindingOf, Rename, DistinctNames;
    HostMacrosHold(decimal, p, knobs);
    var rename, feature := Rename(knobs), Named(p, knobs, false);
    forall n | n in feature
      ensures (n in rename && rename[n] in p.values && BindingOf(decimal, p.values[rename[n]]) == BindingOf(decimal, feature[n]))
              <==> SharedNameAgrees(decimal, p, knobs, n)
    {
      OneMacro(p, knobs, false, n);
    }
  }

  /** Of the values that are numbers, the same with shared numbers. */
  lemma ParsedNumbersHold(decimal: string -> real, p: Parsed, knobs: seq<KnobSpec>)
    requires DistinctNames(knobs)
    ensures NumbersHold(Rename(knobs), EnvOf(decimal, Named(p, knobs, true)), EnvOf(decimal, p.values))
    ensures SharedNumbersAgree(decimal, p, knobs) ==>
              NumbersHold(Rename(knobs), EnvOf(decimal, Named(p, knobs, false)), EnvOf(decimal, p.values))
  {
    hide SideNames, Named, BindingOf, Rename, DistinctNames;
    HostMacrosHold(decimal, p, knobs);
    if SharedNumbersAgree(decimal, p, knobs) {
      var rename, feature := Rename(knobs), Named(p, knobs, false);
      forall n | n in feature && BindingOf(decimal, feature[n]).Number?
        ensures n in rename && rename[n] in p.values && BindingOf(decimal, p.values[rename[n]]) == BindingOf(decimal, feature[n])
      {
        OneMacro(p, knobs, false, n);
      }
    }
  }

  /** A candidate's cost. */
  function Cost(prims: Prims, decimal: string -> real, p: Parsed, knobs: seq<KnobSpec>, structures: seq<Structure>): Formula.Result<real> {
    StorageBits(prims, structures, EnvOf(decimal, Named(p, knobs, false)), EnvOf(decimal, Named(p, knobs, true)))
  }

  /** What the cost model in its comments sums to, on its own defines. */
  function PrintedCost(prims: Prims, decimal: string -> real, p: Parsed, knobs: seq<KnobSpec>, structures: seq<Structure>): Formula.Result<real> {
    PrintedTotal(prims, structures, Rename(knobs), EnvOf(decimal, p.values))
  }

  /** What structures under one name overwrite of each other. */
  function LostCost(prims: Prims, decimal: string -> real, p: Parsed, knobs: seq<KnobSpec>, structures: seq<Structure>): real {
    Overwritten(prims, structures, EnvOf(decimal, Named(p, knobs, false)), EnvOf(decimal, Named(p, knobs, true)))
  }

  /** Every header, printed or mutated, whose shared numbers agree: when the evaluator can cost it, the cost model it
      prints gives that cost exactly when no formula calls a knob's name and nothing is overwritten. */
  lemma CandidateCostsWhatItPrints(prims: Prims, decimal: string -> real, p: Parsed, knobs: seq<KnobSpec>, structures: seq<Structure>)
    requires DistinctNames(knobs) && SharedNumbersAgree(decimal, p, knobs)
    requires forall k :: k in knobs ==> IsKnobMacro(k.macro)
    requires Cost(prims, decimal, p, knobs, structures).Ok?
    ensures PrintedCost(prims, decimal, p, knobs, structures) == Cost(prims, decimal, p, knobs, structures) <==>
            NoneCalled(structures, Rename(knobs)) && LostCost(prims, decimal, p, knobs, structures) == 0.0
  {
    hide StorageBits, PrintedTotal, Overwritten, NumbersHold, NoneCalled, EnvOf, Named, SharedNumbersAgree;
    ParsedNumbersHold(decimal, p, knobs);
    MacrosAreNoFunctions(knobs);
    PrintedModelIffNoneCalled(prims, structures, Rename(knobs), EnvOf(decimal, Named(p, knobs, false)),
                              EnvOf(decimal, Named(p, knobs, true)), EnvOf(decimal, p.values));
  }

  lemma MacrosAreNoFunctions(knobs: seq<KnobSpec>)
    requires forall k :: k in knobs ==> IsKnobMacro(k.macro)
    ensures forall x :: x in Rename(knobs) ==> Rename(knobs)[x] !in FUNCTIONS
  {
    hide SideNames;
    SideMacrosAreKnobs(knobs, false);
    SideMacrosAreKnobs(knobs, true);
    hide IsKnobMacro;
    forall x | x in Rename(knobs)
      ensures Rename(knobs)[x] !in FUNCTIONS
    {
      KnobMacroIsNoFunction(Rename(knobs)[x]);
    }
  }

  lemma {:induction false} SideMacrosAreKnobs(knobs: seq<KnobSpec>, host: bool)
    requires forall k :: k in knobs ==> IsKnobMacro(k.macro)
    ensures forall x :: x in SideNames(knobs, host) ==> IsKnobMacro(SideNames(knobs, host)[x])
  {
    hide IsKnobMacro;
    if knobs != [] {
      SideMacrosAreKnobs(knobs[..|knobs| - 1], host);
    }
  }

  lemma KnobMacroIsNoFunction(macro: string)
    requires IsKnobMacro(macro)
    ensures macro !in FUNCTIONS
  {
    assert macro[0] == 'S' || macro[0] == 'H';
  }

  /** For every cost model the evaluator can cost, with no call of a knob's name and nothing overwritten, the printed
      cost is the candidate's. */
  ghost predicate CostsAsPrinted(decimal: string -> real, p: Parsed, knobs: seq<KnobSpec>) {
    forall prims, structures ::
      Cost(prims, decimal, p, knobs, structures).Ok? && NoneCalled(structures, Rename(knobs)) &&
      LostCost(prims, decimal, p, knobs, structures) == 0.0 ==>
        PrintedCost(prims, decimal, p, knobs, structures) == Cost(prims, decimal, p, knobs, structures)
  }

  /** That is so exactly when every number of the feature's agrees with the host knob of its name. */
  lemma CostsAsPrintedIff(decimal: string -> real, p: Parsed, knobs: seq<KnobSpec>)
    requires DistinctNames(knobs)
    requires forall k :: k in knobs ==> IsKnobMacro(k.macro)
    ensures CostsAsPrinted(decimal, p, knobs) <==> SharedNumbersAgree(decimal, p, knobs)
  {
    hide Cost, PrintedCost, LostCost, NoneCalled, Rename, BindingOf, Named, IsKnobMacro, DistinctNames, SharedNameAgrees;
    if SharedNumbersAgree(decimal, p, knobs) {
      forall prims, structures | Cost(prims, decimal, p, knobs, structures).Ok? && NoneCalled(structures, Rename(knobs)) &&
                                 LostCost(prims, decimal, p, knobs, structures) == 0.0
        ensures PrintedCost(prims, decimal, p, knobs, structures) == Cost(prims, decimal, p, knobs, structures)
      {
        CandidateCostsWhatItPrints(prims, decimal, p, knobs, structures);
      }
    } else {
      var n :| n in Named(p, knobs, false) && BindingOf(decimal, Named(p, knobs, false)[n]).Number? &&
               !SharedNameAgrees(decimal, p, knobs, n);
      TellsApart(decimal, p, knobs, n);
    }
  }

  /** Arithmetic that tells one value from every other. */
  function Telling(v: Value): Prims {
    Prims((op, a, b) => Formula.Err(Arithmetic), (op, a) => if a == v then Formula.Ok(Int(0)) else Formula.Ok(Int(1)),
          (f, vs) => Formula.Err(Arithmetic))
  }

  /** The structure that costs the negation of one knob. */
  function Reading(n: string): Structure {
    Structure("s", false, Unary(Neg, Name(n)))
  }

  lemma TellsApart(decimal: string -> real, p: Parsed, knobs: seq<KnobSpec>, n: string)
    requires DistinctNames(knobs) && n in Named(p, knobs, false) && BindingOf(decimal, Named(p, knobs, false)[n]).Number?
    requires !SharedNameAgrees(decimal, p, knobs, n)
    ensures !CostsAsPrinted(decimal, p, knobs)
  {
    hide BindingOf, Named, SideNames, Rename, EnvOf, CostsAsPrinted;
    OneMacro(p, knobs, false, n);
    var v := BindingOf(decimal, Named(p, knobs, false)[n]).v;
    var prims, s, rename := Telling(v), Reading(n), Rename(knobs);
    OneStructure(prims, s, EnvOf(decimal, Named(p, knobs, false)), EnvOf(decimal, Named(p, knobs, true)), rename, EnvOf(decimal, p.values));
    EnvReads(decimal, Named(p, knobs, false), n);
    EnvReads(decimal, p.values, rename[n]);
    ReadingIs(prims, n, rename, EnvOf(decimal, Named(p, knobs, false)), EnvOf(decimal, p.values));
    assert Lookup(EnvOf(decimal, p.values), rename[n]) != Formula.Ok(v);
    NotAsPrinted(prims, decimal, p, knobs, [s]);
  }

  lemma NotAsPrinted(prims: Prims, decimal: string -> real, p: Parsed, knobs: seq<KnobSpec>, structures: seq<Structure>)
    requires Cost(prims, decimal, p, knobs, structures).Ok? && NoneCalled(structures, Rename(knobs))
    requires LostCost(prims, decimal, p, knobs, structures) == 0.0
    requires PrintedCost(prims, decimal, p, knobs, structures) != Cost(prims, decimal, p, knobs, structures)
    ensures !CostsAsPrinted(decimal, p, knobs)
  {
    hide Cost, PrintedCost, LostCost, NoneCalled, Rename;
  }

  lemma EnvReads(decimal: string -> real, values: map<string, Literal>, x: string)
    ensures Lookup(EnvOf(decimal, values), x) ==
            if x !in values then Formula.Err(UnknownName)
            else match BindingOf(decimal, values[x]) case Number(v) => Formula.Ok(v) case NotNumber => Formula.Err(NotANumber)
  {
    hide BindingOf;
  }

  lemma ReadingIs(prims: Prims, n: string, rename: map<string, string>, env: Env, macros: Env)
    requires n in rename
    ensures Evaluate(prims, Reading(n).bits, env) == match Lookup(env, n) case Err(f) => Formula.Err(f) case Ok(v) => prims.unary(Neg, v)
    ensures Evaluate(prims, Renamed(Reading(n).bits, rename), macros) ==
            match Lookup(macros, rename[n]) case Err(f) => Formula.Err(f) case Ok(v) => prims.unary(Neg, v)
    ensures NoneCalled([Reading(n)], rename)
  {
    assert Called(Reading(n).bits) == {};
  }

  /** One structure costs its formula, and prints it. */
  lemma OneStructure(prims: Prims, s: Structure, feature: Env, host: Env, rename: map<string, string>, macros: Env)
    ensures StorageBits(prims, [s], feature, host) ==
            match Bits(prims, s, feature, host) case Err(f) => Formula.Err(f) case Ok(v) => Formula.Ok(ToReal(v))
    ensures PrintedTotal(prims, [s], rename, macros) ==
            match Evaluate(prims, Renamed(s.bits, rename), macros) case Err(f) => Formula.Err(f) case Ok(v) => Formula.Ok(ToReal(v))
    ensures Overwritten(prims, [s], feature, host) == 0.0
  {
    hide Bits, Evaluate, Renamed, ToReal;
    assert [s][..0] == [];
    assert Breakdown(prims, [], feature, host) == Formula.Ok([]);
    if Bits(prims, s, feature, host).Ok? {
      var c := Charge(Formula.Key(s), ToReal(Bits(prims, s, feature, host).value));
      assert Breakdown(prims, [s], feature, host) == Formula.Ok([c]);
      assert [c][1..] == [] && Sum([c]) == c.bits + Sum([]);
    }
  }

  /** The feature's values as the printed formulas read them: of a shared name, the host knob's. */
  function Shadowed(p: Parsed, knobs: seq<KnobSpec>): map<string, Literal> {
    map n | n in Named(p, knobs, false) && (n in SideNames(knobs, true) ==> n in Named(p, knobs, true)) ::
      if n in SideNames(knobs, true) then Named(p, knobs, true)[n] else Named(p, knobs, false)[n]
  }

  /** So what a header prints costs each feature formula over the host's values of the names they share: where that can be
      costed, it is that cost and what is overwritten of it, unless some formula calls a knob's name. */
  lemma PrintedIsTheShadowedCost(prims: Prims, decimal: string -> real, p: Parsed, knobs: seq<KnobSpec>, structures: seq<Structure>)
    requires DistinctNames(knobs)
    requires forall k :: k in knobs ==> IsKnobMacro(k.macro)
    requires StorageBits(prims, structures, EnvOf(decimal, Shadowed(p, knobs)), EnvOf(decimal, Named(p, knobs, true))).Ok?
    ensures var feature, host := EnvOf(decimal, Shadowed(p, knobs)), EnvOf(decimal, Named(p, knobs, true));
            PrintedCost(prims, decimal, p, knobs, structures) ==
            if NoneCalled(structures, Rename(knobs))
            then Formula.Ok(StorageBits(prims, structures, feature, host).value + Overwritten(prims, structures, feature, host))
            else Formula.Err(NotPlainArithmetic)
  {
    hide StorageBits, PrintedTotal, Overwritten, NumbersHold, NoneCalled, EnvOf, Named, Shadowed, IsKnobMacro;
    ParsedNumbersHold(decimal, p, knobs);
    ShadowedHold(decimal, p, knobs);
    MacrosAreNoFunctions(knobs);
    PrintedModelIffNoneCalled(prims, structures, Rename(knobs), EnvOf(decimal, Shadowed(p, knobs)),
                              EnvOf(decimal, Named(p, knobs, true)), EnvOf(decimal, p.values));
  }

  lemma ShadowedHold(decimal: string -> real, p: Parsed, knobs: seq<KnobSpec>)
    requires DistinctNames(knobs)
    ensures NumbersHold(Rename(knobs), EnvOf(decimal, Shadowed(p, knobs)), EnvOf(decimal, p.values))
  {
    hide SideNames, Named, BindingOf, Rename, DistinctNames;
    forall n | n in Shadowed(p, knobs)
      ensures n in Rename(knobs) && Rename(knobs)[n] in p.values && p.values[Rename(knobs)[n]] == Shadowed(p, knobs)[n]
    {
      OneMacro(p, knobs, false, n);
    }
  }

  function TwoNamed(): seq<KnobSpec> {
    [KnobSpec("SR_N", "n", false), KnobSpec("HOST_N", "n", true)]
  }

  function TwoRead(): Parsed {
    Parsed(map["SR_N" := Integer(1), "HOST_N" := Integer(2)], [])
  }

  /** At an input: `SR_N` of 1 and `HOST_N` of 2 are both named `n`, and a feature structure costs `n`. The candidate costs
      1, and its header prints 2. */
  lemma SharedNameCostsTheHosts(prims: Prims, decimal: string -> real)
    ensures var structures := [Structure("s", false, Name("n"))];
            && Cost(prims, decimal, TwoRead(), TwoNamed(), structures) == Formula.Ok(1.0)
            && PrintedCost(prims, decimal, TwoRead(), TwoNamed(), structures) == Formula.Ok(2.0)
            && NoneCalled(structures, Rename(TwoNamed())) && LostCost(prims, decimal, TwoRead(), TwoNamed(), structures) == 0.0
            && !SharedNumbersAgree(decimal, TwoRead(), TwoNamed())
  {
    hide StorageBits, PrintedTotal, Overwritten, TwoNamed, TwoRead, Named, SideNames, Rename, EnvOf, NoneCalled;
    var p, knobs := TwoRead(), TwoNamed();
    TwoNamesRead();
    EnvReads(decimal, Named(p, knobs, false), "n");
    EnvReads(decimal, p.values, "HOST_N");
    OneNameCosts(prims, EnvOf(decimal, Named(p, knobs, false)), EnvOf(decimal, Named(p, knobs, true)), Rename(knobs),
                 EnvOf(decimal, p.values));
    assert !SharedNameAgrees(decimal, p, knobs, "n");
  }

  lemma OneNameCosts(prims: Prims, feature: Env, host: Env, rename: map<string, string>, macros: Env)
    requires "n" in rename && Lookup(feature, "n") == Formula.Ok(Int(1)) && Lookup(macros, rename["n"]) == Formula.Ok(Int(2))
    ensures var structures := [Structure("s", false, Name("n"))];
            && StorageBits(prims, structures, feature, host) == Formula.Ok(1.0)
            && PrintedTotal(prims, structures, rename, macros) == Formula.Ok(2.0)
            && NoneCalled(structures, rename) && Overwritten(prims, structures, feature, host) == 0.0
  {
    hide StorageBits, PrintedTotal, Overwritten, Lookup;
    var s := Structure("s", false, Name("n"));
    OneStructure(prims, s, feature, host, rename, macros);
    assert Called(s.bits) == {};
  }

  lemma TwoNamesRead()
    ensures Named(TwoRead(), TwoNamed(), false) == map["n" := Integer(1)] && Named(TwoRead(), TwoNamed(), true) == map["n" := Integer(2)]
    ensures "n" in SideNames(TwoNamed(), true) && "n" in Rename(TwoNamed()) && Rename(TwoNamed())["n"] == "HOST_N"
    ensures "HOST_N" in TwoRead().values && TwoRead().values["HOST_N"] == Integer(2)
  {
    var p, knobs := TwoRead(), TwoNamed();
    var one := knobs[..1];
    assert one == [KnobSpec("SR_N", "n", false)] && one[..0] == [];
    assert Named(p, [], false) == map[] && Named(p, [], true) == map[];
    assert Named(p, one, false) == map["n" := Integer(1)] && Named(p, one, true) == map[];
    assert SideNames([], true) == map[] && SideNames(one, true) == map[];
    assert SideNames(knobs, true) == map["n" := "HOST_N"];
  }

  /** With no call of a knob's name, faults included: a header whose formulas read only names of their own side. */
  lemma CandidateFaultsAsItPrints(prims: Prims, decimal: string -> real, p: Parsed, knobs: seq<KnobSpec>, structures: seq<Structure>)
    requires DistinctNames(knobs) && SharedNamesAgree(decimal, p, knobs)
    requires var feature, host := EnvOf(decimal, Named(p, knobs, false)), EnvOf(decimal, Named(p, knobs, true));
             forall s :: s in structures ==> PrintsFaithfully(prims, s, Rename(knobs), feature, host, EnvOf(decimal, p.values))
    ensures PrintedCost(prims, decimal, p, knobs, structures) ==
            match Cost(prims, decimal, p, knobs, structures)
            case Err(f) => Formula.Err(f)
            case Ok(total) => Formula.Ok(total + LostCost(prims, decimal, p, knobs, structures))
  {
    hide StorageBits, PrintedTotal, Overwritten, MacrosHold, PrintsFaithfully, EnvOf, Named, SharedNamesAgree;
    ParsedMacrosHold(decimal, p, knobs);
    PrintedIsStoragePlusOverwritten(prims, structures, Rename(knobs), EnvOf(decimal, Named(p, knobs, false)),
                                    EnvOf(decimal, Named(p, knobs, true)), EnvOf(decimal, p.values));
  }

  /** The knobs of a spec and a plan, printed in this order. */
  ghost predicate Describes(knobs: seq<KnobSpec>, feature: seq<Knob>, host: seq<Knob>) {
    |knobs| == |feature + host| &&
    forall i :: 0 <= i < |knobs| ==> knobs[i].macro == (feature + host)[i].macro && knobs[i].host == (i >= |feature|)
  }

  /** A knob's value reads back under its name. */
  lemma PrintedKnobReadsBack(p: Parsed, knobs: seq<KnobSpec>, feature: seq<Knob>, host: seq<Knob>, i: nat)
    requires DistinctMacros(feature + host) && p.values == Values(feature + host)
    requires Describes(knobs, feature, host) && DistinctNames(knobs) && i < |knobs|
    ensures knobs[i].name in Named(p, knobs, knobs[i].host) &&
            Named(p, knobs, knobs[i].host)[knobs[i].name] == (feature + host)[i].value
  {
    hide Values, Named, SideNames, DistinctMacros;
    ValuesHold(feature + host, i);
    SideNamesAre(knobs, knobs[i].host);
    NamedIsParsed(p, knobs, knobs[i].host, knobs[i].name);
  }

  lemma DescribedAreKnobs(knobs: seq<KnobSpec>, feature: seq<Knob>, host: seq<Knob>)
    requires Describes(knobs, feature, host) && forall k :: k in feature || k in host ==> Printable(k)
    ensures forall k :: k in knobs ==> IsKnobMacro(k.macro)
  {
    hide IsIdentifier, Spellable, IsKnobMacro;
    forall k | k in knobs
      ensures IsKnobMacro(k.macro)
    {
      var i :| 0 <= i < |knobs| && knobs[i] == k;
      assert (feature + host)[i] in feature + host;
    }
  }

  /** Two knobs of one name, one on each side, that print different values, the feature's a number. */
  ghost predicate Clash(decimal: string -> real, knobs: seq<KnobSpec>, printed: seq<Knob>, i: nat, j: nat)
    requires |knobs| == |printed|
  {
    i < |knobs| && j < |knobs| && !knobs[i].host && knobs[j].host && knobs[i].name == knobs[j].name &&
    BindingOf(decimal, printed[i].value).Number? && BindingOf(decimal, printed[i].value) != BindingOf(decimal, printed[j].value)
  }

  /** Each knob's printed value reads back under its name. */
  ghost predicate AllReadBack(p: Parsed, knobs: seq<KnobSpec>, printed: seq<Knob>) {
    |knobs| == |printed| && forall i :: 0 <= i < |knobs| ==> ReadsBack(p, knobs, knobs[i], printed[i].value)
  }

  ghost predicate ReadsBack(p: Parsed, knobs: seq<KnobSpec>, k: KnobSpec, v: Literal) {
    k.name in Named(p, knobs, k.host) && Named(p, knobs, k.host)[k.name] == v
  }

  lemma AgreeIffNoClash(decimal: string -> real, p: Parsed, knobs: seq<KnobSpec>, printed: seq<Knob>)
    requires DistinctNames(knobs) && AllReadBack(p, knobs, printed)
    ensures SharedNumbersAgree(decimal, p, knobs) <==> forall i: nat, j: nat :: !Clash(decimal, knobs, printed, i, j)
  {
    hide Named, SideNames, BindingOf, DistinctNames, ReadsBack, AllReadBack, SharedNameAgrees, Clash;
    assert |knobs| == |printed| by { EachReadsBack(p, knobs, printed); }
    if i: nat, j: nat :| Clash(decimal, knobs, printed, i, j) {
      ClashDisagrees(decimal, p, knobs, printed, i, j);
    } else {
      forall n | n in Named(p, knobs, false) && BindingOf(decimal, Named(p, knobs, false)[n]).Number?
        ensures SharedNameAgrees(decimal, p, knobs, n)
      {
        NoClashAgrees(decimal, p, knobs, printed, n);
      }
    }
  }

  lemma EachReadsBack(p: Parsed, knobs: seq<KnobSpec>, printed: seq<Knob>)
    requires AllReadBack(p, knobs, printed)
    ensures |knobs| == |printed|
    ensures forall i :: 0 <= i < |knobs| ==> ReadsBack(p, knobs, knobs[i], printed[i].value)
  {
    hide ReadsBack;
  }

  lemma ClashDisagrees(decimal: string -> real, p: Parsed, knobs: seq<KnobSpec>, printed: seq<Knob>, i: nat, j: nat)
    requires DistinctNames(knobs) && AllReadBack(p, knobs, printed) && |knobs| == |printed|
    requires Clash(decimal, knobs, printed, i, j)
    ensures !SharedNumbersAgree(decimal, p, knobs)
  {
    hide Named, SideNames, BindingOf;
    assert ReadsBack(p, knobs, knobs[i], printed[i].value) && ReadsBack(p, knobs, knobs[j], printed[j].value);
    NamedIsParsed(p, knobs, true, knobs[j].name);
    assert !SharedNameAgrees(decimal, p, knobs, knobs[i].name);
  }

  lemma KnobOfName(knobs: seq<KnobSpec>, host: bool, n: string) returns (i: nat)
    requires DistinctNames(knobs) && n in SideNames(knobs, host)
    ensures i < |knobs| && knobs[i].host == host && knobs[i].name == n
  {
    SideNamesAre(knobs, host);
    i :| 0 <= i < |knobs| && knobs[i].host == host && knobs[i].name == n;
  }

  lemma NoClashAgrees(decimal: string -> real, p: Parsed, knobs: seq<KnobSpec>, printed: seq<Knob>, n: string)
    requires DistinctNames(knobs) && AllReadBack(p, knobs, printed)
    requires |knobs| == |printed| && forall i: nat, j: nat :: !Clash(decimal, knobs, printed, i, j)
    requires n in Named(p, knobs, false) && BindingOf(decimal, Named(p, knobs, false)[n]).Number?
    ensures SharedNameAgrees(decimal, p, knobs, n)
  {
    hide Named, SideNames, BindingOf, DistinctNames, AllReadBack, ReadsBack, Clash;
    if n in SideNames(knobs, true) {
      NamedIsParsed(p, knobs, false, n);
      var i := KnobOfName(knobs, false, n);
      var j := KnobOfName(knobs, true, n);
      EachReadsBack(p, knobs, printed);
      assert !Clash(decimal, knobs, printed, i, j);
      ApartAgree(decimal, p, knobs, printed, i, j);
    }
  }

  lemma ApartAgree(decimal: string -> real, p: Parsed, knobs: seq<KnobSpec>, printed: seq<Knob>, i: nat, j: nat)
    requires |knobs| == |printed| && i < |knobs| && j < |knobs| && !Clash(decimal, knobs, printed, i, j)
    requires !knobs[i].host && knobs[j].host && knobs[i].name == knobs[j].name
    requires ReadsBack(p, knobs, knobs[i], printed[i].value) && ReadsBack(p, knobs, knobs[j], printed[j].value)
    requires BindingOf(decimal, Named(p, knobs, false)[knobs[i].name]).Number?
    ensures SharedNameAgrees(decimal, p, knobs, knobs[i].name)
  {
    hide Named, SideNames, BindingOf;
  }

  /** A printed header: what `knob_values` reads of it is each knob's printed value under its name. The cost model printed
      beside those values costs them as the evaluator does, whatever the structures, exactly when no two knobs of one name
      clash; and then for each one exactly when no formula calls a knob's name and nothing is overwritten. */
  lemma PrintedHeaderCosts(prims: Prims, decimal: string -> real, notes: Notes, constraints: seq<string>, feature: seq<Knob>,
                           host: seq<Knob>, model: seq<string>, knobs: seq<KnobSpec>, structures: seq<Structure>)
    requires forall k :: k in feature || k in host ==> Printable(k)
    requires DistinctMacros(feature + host) && TextsStay(notes, constraints, feature, host, model)
    requires Describes(knobs, feature, host) && DistinctNames(knobs)
    ensures var p := ParseLines(SplitLines(PrintHeader(notes, constraints, feature, host, model)));
            && AllReadBack(p, knobs, feature + host)
            && |knobs| == |feature + host|
            && (CostsAsPrinted(decimal, p, knobs) <==> forall i: nat, j: nat :: !Clash(decimal, knobs, feature + host, i, j))
            && (CostsAsPrinted(decimal, p, knobs) && Cost(prims, decimal, p, knobs, structures).Ok? ==>
                  (PrintedCost(prims, decimal, p, knobs, structures) == Cost(prims, decimal, p, knobs, structures) <==>
                   NoneCalled(structures, Rename(knobs)) && LostCost(prims, decimal, p, knobs, structures) == 0.0))
  {
    hide Printable, ParseLines, SplitLines, PrintHeader, Values, TextsStay, Named, Cost, PrintedCost, LostCost, NoneCalled,
      SharedNumbersAgree, Clash, CostsAsPrinted, Rename, DistinctMacros, DistinctNames, Describes, IsKnobMacro;
    var p := ParseLines(SplitLines(PrintHeader(notes, constraints, feature, host, model)));
    HeaderRoundTripIff(notes, constraints, feature, host, model);
    assert |knobs| == |feature + host| by { DescribedInFull(knobs, feature, host); }
    forall i | 0 <= i < |knobs|
      ensures ReadsBack(p, knobs, knobs[i], (feature + host)[i].value)
    {
      PrintedKnobReadsBack(p, knobs, feature, host, i);
    }
    DescribedAreKnobs(knobs, feature, host);
    CostsAsPrintedIff(decimal, p, knobs);
    AgreeIffNoClash(decimal, p, knobs, feature + host);
    if SharedNumbersAgree(decimal, p, knobs) && Cost(prims, decimal, p, knobs, structures).Ok? {
      CandidateCostsWhatItPrints(prims, decimal, p, knobs, structures);
    }
  }

  lemma DescribedInFull(knobs: seq<KnobSpec>, feature: seq<Knob>, host: seq<Knob>)
    requires Describes(knobs, feature, host)
    ensures |knobs| == |feature + host|
  {
  }
}
