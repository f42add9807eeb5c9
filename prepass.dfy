/**
 * The encoder's first pass, which rebuilds the tables from the object graph
 * before anything is written. PHP arrays are ordered dictionaries; here such
 * an array of string keys is an `IndexMap`: its keys in insertion order and the
 * index stored under each.
 *
 * The pass visits the hardcoded enums, then for each command its alias enum
 * and then, overload by overload, each parameter's enum and postfix. An enum
 * gets the next table index the first time its name is seen; every value of
 * every visited enum, and every postfix, gets the next pool index the first
 * time that exact string is seen.
 */
module Prepass {
  import opened Wrappers
  import opened Commands

  /** A PHP array `string => int` whose entries were all added as `$m[$k] = $m[$k] ?? count($m)`. */
  datatype IndexMap = IndexMap(keys: seq<string>, index: map<string, nat>) {

    /** Every key is stored under its insertion position. */
    ghost predicate Valid() {
      (forall k :: k in index <==> k in keys) &&
      (forall i :: 0 <= i < |keys| ==> keys[i] in index && index[keys[i]] == i)
    }

    /** `count($m)` */
    function Count(): nat {
      |keys|
    }

    /** `$m[$k] = $m[$k] ?? count($m)`: a new key goes last, with the next index; a known key is untouched. */
    function Add(k: string): IndexMap {
      if k in index then this else IndexMap(keys + [k], index[k := |keys|])
    }

    /** `foreach ($ks as $k) { $m[$k] = $m[$k] ?? count($m); }` */
    function AddAll(ks: seq<string>): IndexMap
      decreases |ks|
    {
      if ks == [] then this else Add(ks[0]).AddAll(ks[1..])
    }
  }

  const EmptyIndexMap: IndexMap := IndexMap([], map[])

  /** The four arrays the pass builds: `$enumValueIndexes`, `$postfixIndexes`, `$enumIndexes`, `$enums`. */
  datatype Tables = Tables(
    enumValueIndexes: IndexMap,
    postfixIndexes: IndexMap,
    enumIndexes: IndexMap,
    enums: seq<CommandEnum>)
  {
    /** The three maps are consistent, `$enums` lines up with `$enumIndexes`, and every table enum's values are pooled. */
    ghost predicate Valid() {
      enumValueIndexes.Valid() && postfixIndexes.Valid() && enumIndexes.Valid() &&
      |enums| == |enumIndexes.keys| &&
      (forall i :: 0 <= i < |enums| ==> enums[i].name == enumIndexes.keys[i]) &&
      (forall i, v :: 0 <= i < |enums| && v in enums[i].values ==> v in enumValueIndexes.index)
    }
  }

  const EmptyTables: Tables := Tables(EmptyIndexMap, EmptyIndexMap, EmptyIndexMap, [])

  /** The first half of `$addEnumFn`: a name not yet in `$enumIndexes` gets the next index, and the enum joins `$enums`. */
  function RegisterName(t: Tables, e: CommandEnum): Tables {
    if e.name in t.enumIndexes.index then t
    else t.(enumIndexes := t.enumIndexes.Add(e.name), enums := t.enums + [e])
  }

  /** `$addEnumFn`: register the enum by name if it is new, then register every one of its values. */
  function AddEnum(t: Tables, e: CommandEnum): Tables {
    var t1 := RegisterName(t, e);
    t1.(enumValueIndexes := t1.enumValueIndexes.AddAll(e.values))
  }

  function AddEnums(t: Tables, es: seq<CommandEnum>): Tables
    decreases |es|
  {
    if es == [] then t else AddEnums(AddEnum(t, es[0]), es[1..])
  }

  /** A parameter's enum, then its postfix. */
  function AddParameter(t: Tables, p: CommandParameter): Tables {
    var t1 := if p.enum.Some? then AddEnum(t, p.enum.value) else t;
    if p.postfix.Some? then t1.(postfixIndexes := t1.postfixIndexes.Add(p.postfix.value)) else t1
  }

  function AddParameters(t: Tables, ps: seq<CommandParameter>): Tables
    decreases |ps|
  {
    if ps == [] then t else AddParameters(AddParameter(t, ps[0]), ps[1..])
  }

  function AddOverloads(t: Tables, os: seq<seq<CommandParameter>>): Tables
    decreases |os|
  {
    if os == [] then t else AddOverloads(AddParameters(t, os[0]), os[1..])
  }

  /** A command's alias enum, then its overloads. */
  function AddCommand(t: Tables, c: CommandData): Tables {
    AddOverloads(if c.aliases.Some? then AddEnum(t, c.aliases.value) else t, c.overloads)
  }

  function AddCommands(t: Tables, cs: seq<CommandData>): Tables
    decreases |cs|
  {
    if cs == [] then t else AddCommands(AddCommand(t, cs[0]), cs[1..])
  }

  /** The whole pass of `encodePayload`: hardcoded enums first, then the commands. */
  function Build(m: PacketModel): Tables {
    AddCommands(AddEnums(EmptyTables, m.hardcodedEnums), m.commandData)
  }

  // A reference description of the pass: the traversal as one flat list of visits, and first occurrences.

  /** One thing the pass registers: an enum (by name, with its values) or a postfix. */
  datatype Visit = EnumVisit(e: CommandEnum) | PostfixVisit(postfix: string)

  function AddVisit(t: Tables, v: Visit): Tables {
    match v
    case EnumVisit(e) => AddEnum(t, e)
    case PostfixVisit(p) => t.(postfixIndexes := t.postfixIndexes.Add(p))
  }

  function AddVisits(t: Tables, vs: seq<Visit>): Tables
    decreases |vs|
  {
    if vs == [] then t else AddVisits(AddVisit(t, vs[0]), vs[1..])
  }

  function EnumVisits(es: seq<CommandEnum>): seq<Visit> {
    if es == [] then [] else [EnumVisit(es[0])] + EnumVisits(es[1..])
  }

  /** A parameter's enum, then its postfix. */
  function ParameterVisit(p: CommandParameter): seq<Visit> {
    (if p.enum.Some? then [EnumVisit(p.enum.value)] else []) +
    (if p.postfix.Some? then [PostfixVisit(p.postfix.value)] else [])
  }

  function ParameterVisits(ps: seq<CommandParameter>): seq<Visit> {
    if ps == [] then [] else ParameterVisit(ps[0]) + ParameterVisits(ps[1..])
  }

  function OverloadVisits(os: seq<seq<CommandParameter>>): seq<Visit> {
    if os == [] then [] else ParameterVisits(os[0]) + OverloadVisits(os[1..])
  }

  function CommandVisits(cs: seq<CommandData>): seq<Visit> {
    if cs == [] then []
    else
      (if cs[0].aliases.Some? then [EnumVisit(cs[0].aliases.value)] else []) +
      OverloadVisits(cs[0].overloads) + CommandVisits(cs[1..])
  }

  /** Everything the pass of `encodePayload` visits, in order. */
  function Visits(m: PacketModel): seq<Visit> {
    EnumVisits(m.hardcodedEnums) + CommandVisits(m.commandData)
  }

  /** The enums among the visits, in order, repeats included. */
  function EnumsOf(vs: seq<Visit>): seq<CommandEnum> {
    if vs == [] then [] else EnumOf(vs[0]) + EnumsOf(vs[1..])
  }

  function EnumOf(v: Visit): seq<CommandEnum> {
    if v.EnumVisit? then [v.e] else []
  }

  function PostfixOf(v: Visit): seq<string> {
    if v.PostfixVisit? then [v.postfix] else []
  }

  /** The postfixes among the visits, in order, repeats included. */
  function PostfixesOf(vs: seq<Visit>): seq<string> {
    if vs == [] then [] else PostfixOf(vs[0]) + PostfixesOf(vs[1..])
  }

  /** Every enum the pass visits, in visiting order, repeats included. */
  function VisitedEnums(m: PacketModel): seq<CommandEnum> {
    EnumsOf(Visits(m))
  }

  /** Every postfix the pass visits, in visiting order, repeats included. */
  function VisitedPostfixes(m: PacketModel): seq<string> {
    PostfixesOf(Visits(m))
  }

  /** All values of a list of enums, concatenated in order. */
  function AllValues(es: seq<CommandEnum>): seq<string> {
    if es == [] then [] else AllValues(es[..|es| - 1]) + es[|es| - 1].values
  }

  function Names(es: seq<CommandEnum>): seq<string> {
    if es == [] then [] else Names(es[..|es| - 1]) + [es[|es| - 1].name]
  }

  /** The first occurrence of each string, in order of first occurrence. */
  function Dedup(s: seq<string>): seq<string> {
    if s == [] then []
    else
      var init := s[..|s| - 1];
      if s[|s| - 1] in init then Dedup(init) else Dedup(init) + [s[|s| - 1]]
  }

  /** The first enum of each name, in order of first occurrence. */
  function DedupByName(es: seq<CommandEnum>): seq<CommandEnum> {
    if es == [] then []
    else
      var init := es[..|es| - 1];
      if es[|es| - 1].name in Names(init) then DedupByName(init) else DedupByName(init) + [es[|es| - 1]]
  }

  /** What the tables hold after visiting the enums `pe` and the postfixes `pp`. */
  ghost predicate Describes(t: Tables, pe: seq<CommandEnum>, pp: seq<string>) {
    t.Valid() &&
    t.enums == DedupByName(pe) &&
    t.enumValueIndexes.keys == Dedup(AllValues(pe)) &&
    t.postfixIndexes.keys == Dedup(pp)
  }

  // Lemmas.

  lemma {:induction false} DedupElements(s: seq<string>)
    ensures forall x :: x in Dedup(s) <==> x in s
  {
    if s != [] {
      DedupElements(s[..|s| - 1]);
      assert s == s[..|s| - 1] + [s[|s| - 1]];
    }
  }

  lemma {:induction false} NamesOf(es: seq<CommandEnum>)
    ensures |Names(es)| == |es|
    ensures forall i :: 0 <= i < |es| ==> Names(es)[i] == es[i].name
  {
    if es != [] {
      NamesOf(es[..|es| - 1]);
    }
  }

  lemma NamesSnoc(es: seq<CommandEnum>, e: CommandEnum)
    ensures Names(es + [e]) == Names(es) + [e.name]
  {
    assert (es + [e])[..|es|] == es;
  }

  lemma {:induction false} DedupByNameNames(es: seq<CommandEnum>)
    ensures forall n :: n in Names(DedupByName(es)) <==> n in Names(es)
    ensures forall e :: e in DedupByName(es) ==> e in es
  {
    if es != [] {
      var init, last := es[..|es| - 1], es[|es| - 1];
      DedupByNameNames(init);
      assert es == init + [last];
      NamesSnoc(init, last);
      if last.name !in Names(init) {
        NamesSnoc(DedupByName(init), last);
      }
    }
  }

  /** Adding a key keeps the map valid, and a new key goes last. */
  lemma AddValid(m: IndexMap, k: string)
    requires m.Valid()
    ensures m.Add(k).Valid()
    ensures m.Add(k).keys == if k in m.keys then m.keys else m.keys + [k]
  {
  }

  /** A valid map's keys are distinct and each is found at the position stored for it. */
  lemma {:induction false} IndexIsPosition(m: IndexMap, k: string)
    requires m.Valid() && k in m.index
    ensures m.index[k] < |m.keys| && m.keys[m.index[k]] == k
  {
    var i :| 0 <= i < |m.keys| && m.keys[i] == k;
    assert m.index[m.keys[i]] == i;
  }

  /** One `Add` keeps the keys equal to the first occurrences of the names seen so far. */
  lemma AddKeysStep(m: IndexMap, k: string, prefix: seq<string>)
    requires m.Valid() && m.keys == Dedup(prefix)
    ensures m.Add(k).Valid() && m.Add(k).keys == Dedup(prefix + [k])
    ensures forall x :: x in m.Add(k).index <==> x in m.index || x == k
  {
    DedupElements(prefix);
    var p' := prefix + [k];
    assert p'[..|p'| - 1] == prefix;
    AddValid(m, k);
  }

  /**
   * The `foreach` that adds keys: the result is valid, holds the old keys and
   * the new ones, and orders them by first occurrence after the old ones.
   */
  lemma {:induction false} AddAllKeys(m: IndexMap, ks: seq<string>, prefix: seq<string>)
    requires m.Valid() && m.keys == Dedup(prefix)
    ensures m.AddAll(ks).Valid()
    ensures m.AddAll(ks).keys == Dedup(prefix + ks)
    decreases |ks|
  {
    if ks == [] {
      assert prefix + ks == prefix;
    } else {
      var p' := prefix + [ks[0]];
      AddKeysStep(m, ks[0], prefix);
      AddAllKeys(m.Add(ks[0]), ks[1..], p');
      assert p' + ks[1..] == prefix + ks;
    }
  }

  /** The same, with the keys present afterwards named: the old ones and the new ones. */
  lemma AddAllSpec(m: IndexMap, ks: seq<string>, prefix: seq<string>)
    requires m.Valid() && m.keys == Dedup(prefix)
    ensures m.AddAll(ks).Valid()
    ensures m.AddAll(ks).keys == Dedup(prefix + ks)
    ensures forall k :: k in m.AddAll(ks).index <==> k in m.index || k in ks
  {
    AddAllKeys(m, ks, prefix);
    DedupElements(prefix);
    DedupElements(prefix + ks);
  }

  /** Registering the name keeps the enum table in step with `$enumIndexes` and extends it by first occurrence. */
  lemma RegisterNameStep(t: Tables, pe: seq<CommandEnum>, pp: seq<string>, e: CommandEnum)
    requires Describes(t, pe, pp)
    ensures var t1 := RegisterName(t, e);
      t1.enumIndexes.Valid() && |t1.enums| == |t1.enumIndexes.keys| &&
      (forall i :: 0 <= i < |t1.enums| ==> t1.enums[i].name == t1.enumIndexes.keys[i]) &&
      t1.enums == DedupByName(pe + [e]) &&
      (forall x :: x in t1.enums ==> x in t.enums || x == e)
  {
    var pe' := pe + [e];
    assert pe'[..|pe'| - 1] == pe;
    DedupByNameNames(pe);
    NamesOf(t.enums);
    assert Names(t.enums) == t.enumIndexes.keys;
    assert e.name in t.enumIndexes.index <==> e.name in Names(pe);
    if e.name !in t.enumIndexes.index {
      AddValid(t.enumIndexes, e.name);
      var t1 := RegisterName(t, e);
      assert t1.enumIndexes.keys == t.enumIndexes.keys + [e.name];
      assert t1.enums == t.enums + [e];
    }
  }

  /** One call of `$addEnumFn` extends the description by that enum. */
  lemma AddEnumStep(t: Tables, pe: seq<CommandEnum>, pp: seq<string>, e: CommandEnum)
    requires Describes(t, pe, pp)
    ensures Describes(AddEnum(t, e), pe + [e], pp)
    ensures AddEnum(t, e).postfixIndexes == t.postfixIndexes
  {
    var pe' := pe + [e];
    RegisterNameStep(t, pe, pp, e);
    var t1 := RegisterName(t, e);
    AddAllSpec(t1.enumValueIndexes, e.values, AllValues(pe));
    assert pe'[..|pe'| - 1] == pe;
    assert AllValues(pe') == AllValues(pe) + e.values;
    var t2 := AddEnum(t, e);
    forall i, v | 0 <= i < |t2.enums| && v in t2.enums[i].values
      ensures v in t2.enumValueIndexes.index
    {
      assert t2.enums[i] in t1.enums;
      if t2.enums[i] != e {
        var j :| 0 <= j < |t.enums| && t.enums[j] == t2.enums[i];
      }
    }
  }

  lemma AddVisitStep(t: Tables, pe: seq<CommandEnum>, pp: seq<string>, v: Visit)
    requires Describes(t, pe, pp)
    ensures Describes(AddVisit(t, v), pe + EnumOf(v), pp + PostfixOf(v))
  {
    match v {
      case EnumVisit(e) =>
        AddEnumStep(t, pe, pp, e);
        assert pp + PostfixOf(v) == pp;
      case PostfixVisit(p) =>
        var pp' := pp + [p];
        assert pp'[..|pp'| - 1] == pp;
        DedupElements(pp);
        AddValid(t.postfixIndexes, p);
        assert pe + EnumOf(v) == pe;
    }
  }

  /** Whatever one visit preserves, the whole fold preserves. */
  lemma {:induction false} FoldPreserves(
    inv: (Tables, seq<CommandEnum>, seq<string>) -> bool,
    t: Tables, pe: seq<CommandEnum>, pp: seq<string>, vs: seq<Visit>)
    requires forall t', pe', pp', v :: inv(t', pe', pp') ==> inv(AddVisit(t', v), pe' + EnumOf(v), pp' + PostfixOf(v))
    requires inv(t, pe, pp)
    ensures inv(AddVisits(t, vs), pe + EnumsOf(vs), pp + PostfixesOf(vs))
    decreases |vs|
  {
    if vs == [] {
      assert pe + [] == pe && pp + [] == pp;
    } else {
      var v := vs[0];
      var t', pe', pp' := AddVisit(t, v), pe + EnumOf(v), pp + PostfixOf(v);
      assert inv(t', pe', pp');
      FoldPreserves(inv, t', pe', pp', vs[1..]);
      assert EnumsOf(vs) == EnumOf(v) + EnumsOf(vs[1..]);
      assert pe' + EnumsOf(vs[1..]) == pe + EnumsOf(vs);
      assert PostfixesOf(vs) == PostfixOf(v) + PostfixesOf(vs[1..]);
      assert pp' + PostfixesOf(vs[1..]) == pp + PostfixesOf(vs);
    }
  }

  lemma AddVisitsStep(t: Tables, pe: seq<CommandEnum>, pp: seq<string>, vs: seq<Visit>)
    requires Describes(t, pe, pp)
    ensures Describes(AddVisits(t, vs), pe + EnumsOf(vs), pp + PostfixesOf(vs))
  {
    var inv := (t', pe', pp') => Describes(t', pe', pp');
    forall t', pe', pp', v | inv(t', pe', pp')
      ensures inv(AddVisit(t', v), pe' + EnumOf(v), pp' + PostfixOf(v))
    {
      AddVisitStep(t', pe', pp', v);
    }
    FoldPreserves(inv, t, pe, pp, vs);
  }

  // The nested loops of the pass visit exactly the flat list.

  lemma {:induction false} AddVisitsAppend(t: Tables, a: seq<Visit>, b: seq<Visit>)
    ensures AddVisits(t, a + b) == AddVisits(AddVisits(t, a), b)
    decreases |a|
  {
    if a == [] {
      assert a + b == b;
    } else {
      assert (a + b)[0] == a[0] && (a + b)[1..] == a[1..] + b;
      AddVisitsAppend(AddVisit(t, a[0]), a[1..], b);
    }
  }

  lemma {:induction false} AddEnumsVisits(t: Tables, es: seq<CommandEnum>)
    ensures AddEnums(t, es) == AddVisits(t, EnumVisits(es))
    decreases |es|
  {
    if es != [] {
      AddEnumsVisits(AddEnum(t, es[0]), es[1..]);
      AddVisitsAppend(t, [EnumVisit(es[0])], EnumVisits(es[1..]));
    }
  }

  lemma ParameterVisitOne(t: Tables, p: CommandParameter)
    ensures AddParameter(t, p) == AddVisits(t, ParameterVisit(p))
  {
    var ev := if p.enum.Some? then [EnumVisit(p.enum.value)] else [];
    var pv := if p.postfix.Some? then [PostfixVisit(p.postfix.value)] else [];
    AddVisitsAppend(t, ev, pv);
  }

  lemma {:induction false} AddParametersVisits(t: Tables, ps: seq<CommandParameter>)
    ensures AddParameters(t, ps) == AddVisits(t, ParameterVisits(ps))
    decreases |ps|
  {
    if ps != [] {
      ParameterVisitOne(t, ps[0]);
      AddParametersVisits(AddParameter(t, ps[0]), ps[1..]);
      AddVisitsAppend(t, ParameterVisit(ps[0]), ParameterVisits(ps[1..]));
    }
  }

  lemma {:induction false} AddOverloadsVisits(t: Tables, os: seq<seq<CommandParameter>>)
    ensures AddOverloads(t, os) == AddVisits(t, OverloadVisits(os))
    decreases |os|
  {
    if os != [] {
      AddParametersVisits(t, os[0]);
      AddOverloadsVisits(AddParameters(t, os[0]), os[1..]);
      AddVisitsAppend(t, ParameterVisits(os[0]), OverloadVisits(os[1..]));
    }
  }

  lemma {:induction false} AddCommandsVisits(t: Tables, cs: seq<CommandData>)
    ensures AddCommands(t, cs) == AddVisits(t, CommandVisits(cs))
    decreases |cs|
  {
    if cs != [] {
      var c := cs[0];
      var av := if c.aliases.Some? then [EnumVisit(c.aliases.value)] else [];
      var t1 := if c.aliases.Some? then AddEnum(t, c.aliases.value) else t;
      assert t1 == AddVisits(t, av);
      AddOverloadsVisits(t1, c.overloads);
      AddCommandsVisits(AddCommand(t, c), cs[1..]);
      AddVisitsAppend(t, av, OverloadVisits(c.overloads));
      AddVisitsAppend(t, av + OverloadVisits(c.overloads), CommandVisits(cs[1..]));
    }
  }

  /** The nested loops of `encodePayload`'s first pass amount to one fold over the visit list. */
  lemma BuildVisits(m: PacketModel)
    ensures Build(m) == AddVisits(EmptyTables, Visits(m))
  {
    AddEnumsVisits(EmptyTables, m.hardcodedEnums);
    AddCommandsVisits(AddEnums(EmptyTables, m.hardcodedEnums), m.commandData);
    AddVisitsAppend(EmptyTables, EnumVisits(m.hardcodedEnums), CommandVisits(m.commandData));
  }

  /**
   * The pass, described independently of its loops: the enum table is the
   * first enum of each name among the visited enums, the value pool is the
   * first occurrence of each value of the visited enums, the postfix pool the
   * first occurrence of each visited postfix, all in visiting order; and every
   * string sits at the index the maps store for it.
   */
  lemma BuildSpec(m: PacketModel)
    ensures Describes(Build(m), VisitedEnums(m), VisitedPostfixes(m))
  {
    BuildVisits(m);
    assert Describes(EmptyTables, [], []);
    AddVisitsStep(EmptyTables, [], [], Visits(m));
    assert [] + VisitedEnums(m) == VisitedEnums(m);
    assert [] + VisitedPostfixes(m) == VisitedPostfixes(m);
  }

  // Where each visited thing comes from.

  lemma {:induction false} ParameterVisitsHas(ps: seq<CommandParameter>, p: CommandParameter)
    requires p in ps
    ensures p.enum.Some? ==> EnumVisit(p.enum.value) in ParameterVisits(ps)
    ensures p.postfix.Some? ==> PostfixVisit(p.postfix.value) in ParameterVisits(ps)
  {
    if ps[0] != p {
      ParameterVisitsHas(ps[1..], p);
    }
  }

  lemma {:induction false} OverloadVisitsHas(os: seq<seq<CommandParameter>>, o: seq<CommandParameter>, v: Visit)
    requires o in os && v in ParameterVisits(o)
    ensures v in OverloadVisits(os)
  {
    if os[0] != o {
      OverloadVisitsHas(os[1..], o, v);
    }
  }

  lemma {:induction false} CommandVisitsHas(cs: seq<CommandData>, c: CommandData, v: Visit)
    requires c in cs
    requires v in OverloadVisits(c.overloads) || (c.aliases.Some? && v == EnumVisit(c.aliases.value))
    ensures v in CommandVisits(cs)
  {
    if cs[0] != c {
      CommandVisitsHas(cs[1..], c, v);
    }
  }

  lemma {:induction false} EnumVisitsHas(es: seq<CommandEnum>, e: CommandEnum)
    requires e in es
    ensures EnumVisit(e) in EnumVisits(es)
  {
    if es[0] != e {
      EnumVisitsHas(es[1..], e);
    }
  }

  lemma {:induction false} VisitsProject(vs: seq<Visit>, v: Visit)
    requires v in vs
    ensures v.EnumVisit? ==> v.e in EnumsOf(vs)
    ensures v.PostfixVisit? ==> v.postfix in PostfixesOf(vs)
  {
    if vs[0] != v {
      VisitsProject(vs[1..], v);
    }
  }

  /** The pass visits every hardcoded enum, every alias enum, and every parameter's enum and postfix. */
  lemma Visited(m: PacketModel)
    ensures forall e :: e in m.hardcodedEnums ==> e in VisitedEnums(m)
    ensures forall c :: c in m.commandData && c.aliases.Some? ==> c.aliases.value in VisitedEnums(m)
    ensures forall c, o, p :: c in m.commandData && o in c.overloads && p in o ==>
              (p.enum.Some? ==> p.enum.value in VisitedEnums(m)) &&
              (p.postfix.Some? ==> p.postfix.value in VisitedPostfixes(m))
  {
    var hv, cv := EnumVisits(m.hardcodedEnums), CommandVisits(m.commandData);
    assert Visits(m) == hv + cv;
    forall e | e in m.hardcodedEnums ensures e in VisitedEnums(m) {
      EnumVisitsHas(m.hardcodedEnums, e);
      VisitsProject(Visits(m), EnumVisit(e));
    }
    forall c | c in m.commandData && c.aliases.Some? ensures c.aliases.value in VisitedEnums(m) {
      CommandVisitsHas(m.commandData, c, EnumVisit(c.aliases.value));
      VisitsProject(Visits(m), EnumVisit(c.aliases.value));
    }
    forall c, o, p | c in m.commandData && o in c.overloads && p in o
      ensures p.enum.Some? ==> p.enum.value in VisitedEnums(m)
      ensures p.postfix.Some? ==> p.postfix.value in VisitedPostfixes(m)
    {
      ParameterVisitsHas(o, p);
      if p.enum.Some? {
        OverloadVisitsHas(c.overloads, o, EnumVisit(p.enum.value));
        CommandVisitsHas(m.commandData, c, EnumVisit(p.enum.value));
        VisitsProject(Visits(m), EnumVisit(p.enum.value));
      }
      if p.postfix.Some? {
        OverloadVisitsHas(c.overloads, o, PostfixVisit(p.postfix.value));
        CommandVisitsHas(m.commandData, c, PostfixVisit(p.postfix.value));
        VisitsProject(Visits(m), PostfixVisit(p.postfix.value));
      }
    }
  }

  lemma {:induction false} AllValuesHas(es: seq<CommandEnum>, e: CommandEnum, v: string)
    requires e in es && v in e.values
    ensures v in AllValues(es)
  {
    var init := es[..|es| - 1];
    if es[|es| - 1] != e {
      assert e in init by {
        var i :| 0 <= i < |es| && es[i] == e;
        assert init[i] == e;
      }
      AllValuesHas(init, e, v);
    }
  }

  /**
   * After the pass, every visited enum's name is in `$enumIndexes`, every
   * value of it is in `$enumValueIndexes`, and every visited postfix is in
   * `$postfixIndexes`.
   */
  lemma VisitedInTables(m: PacketModel)
    ensures Build(m).Valid()
    ensures forall e :: e in VisitedEnums(m) ==> e.name in Build(m).enumIndexes.index
    ensures forall e, v :: e in VisitedEnums(m) && v in e.values ==> v in Build(m).enumValueIndexes.index
    ensures forall p :: p in VisitedPostfixes(m) ==> p in Build(m).postfixIndexes.index
  {
    var t, ve, vp := Build(m), VisitedEnums(m), VisitedPostfixes(m);
    BuildSpec(m);
    DedupByNameNames(ve);
    NamesOf(ve);
    NamesOf(t.enums);
    assert Names(t.enums) == t.enumIndexes.keys;
    forall e | e in ve ensures e.name in t.enumIndexes.index {
      var i :| 0 <= i < |ve| && ve[i] == e;
      assert Names(ve)[i] == e.name;
    }
    DedupElements(AllValues(ve));
    forall e, v | e in ve && v in e.values ensures v in t.enumValueIndexes.index {
      AllValuesHas(ve, e, v);
    }
    DedupElements(vp);
  }

  /** Enums with one name are one enum, among everything the pass visits. */
  ghost predicate UniqueNames(m: PacketModel) {
    forall e1, e2 :: e1 in VisitedEnums(m) && e2 in VisitedEnums(m) && e1.name == e2.name ==> e1 == e2
  }

  /** With unique names, the table entry stored for a visited enum's name is that enum. */
  lemma TableEntry(m: PacketModel, e: CommandEnum)
    requires UniqueNames(m) && e in VisitedEnums(m)
    ensures e.name in Build(m).enumIndexes.index
    ensures Build(m).enumIndexes.index[e.name] < |Build(m).enums|
    ensures Build(m).enums[Build(m).enumIndexes.index[e.name]] == e
  {
    var t := Build(m);
    VisitedInTables(m);
    BuildSpec(m);
    IndexIsPosition(t.enumIndexes, e.name);
    var i := t.enumIndexes.index[e.name];
    DedupByNameNames(VisitedEnums(m));
    assert t.enums[i] in t.enums;
  }
}
