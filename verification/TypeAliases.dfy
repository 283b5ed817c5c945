/**
 * Alias resolution: every bare reference to an alias is replaced by the alias's body, once
 * along any path. It ends on every alias map, cyclic ones included, and keeps the meaning.
 */
module TypeAliases {
  import opened TypeSyntax
  import opened TypeParser
  import opened TypeMeaning

  type Aliases = map<string, string>

  predicate Expands(aliases: Aliases, seen: set<string>, name: string) {
    name in aliases && aliases[name] != "" && name !in seen
  }

  function Resolve(t: TypeAst, aliases: Aliases, seen: set<string>): TypeAst
    decreases aliases.Keys - seen, t
  {
    match t
    case Ref(name, args) =>
      if args != [] then Ref(name, ResolveAll(args, aliases, seen))
      else if Expands(aliases, seen, name) then
        assert name in aliases.Keys - seen && name !in aliases.Keys - (seen + {name});
        Resolve(ParseType(aliases[name]), aliases, seen + {name})
      else t
    case Union(members) => Union(ResolveAll(members, aliases, seen))
    case Intersection(members) => Intersection(ResolveAll(members, aliases, seen))
    case Array(element, readonly) => Array(Resolve(element, aliases, seen), readonly)
    case Object(fields) => Object(ResolveFields(fields, aliases, seen))
    case _ => t
  }

  function ResolveAll(ts: seq<TypeAst>, aliases: Aliases, seen: set<string>): (r: seq<TypeAst>)
    ensures |r| == |ts|
    decreases aliases.Keys - seen, ts
  {
    if ts == [] then [] else [Resolve(ts[0], aliases, seen)] + ResolveAll(ts[1..], aliases, seen)
  }

  function ResolveFields(fs: seq<Field>, aliases: Aliases, seen: set<string>): (r: seq<Field>)
    ensures |r| == |fs|
    decreases aliases.Keys - seen, fs
  {
    if fs == [] then []
    else [Field(fs[0].name, fs[0].required, Resolve(fs[0].typ, aliases, seen))] + ResolveFields(fs[1..], aliases, seen)
  }

  // ---------------------------------------------------------------- meaning

  /** The environment gives every alias the meaning of its body. */
  ghost predicate Solves(env: Env, aliases: Aliases) {
    forall name :: name in aliases && aliases[name] != "" ==>
      env.named(name, []) == Meaning(env, ParseType(aliases[name]))
  }

  lemma {:induction false} ResolveMeans(env: Env, t: TypeAst, aliases: Aliases, seen: set<string>, v: Value)
    requires Solves(env, aliases)
    ensures Has(env, Resolve(t, aliases, seen), v) <==> Has(env, t, v)
    decreases aliases.Keys - seen, t
  {
    match t
    case Ref(name, args) =>
      if args != [] {
        ResolveArgsMean(env, args, aliases, seen);
      } else if Expands(aliases, seen, name) {
        assert name in aliases.Keys - seen && name !in aliases.Keys - (seen + {name});
        ResolveMeans(env, ParseType(aliases[name]), aliases, seen + {name}, v);
        assert MeaningAll(env, args) == [];
      }
    case Union(members) => ResolveAllMean(env, members, aliases, seen, v);
    case Intersection(members) => ResolveAllMean(env, members, aliases, seen, v);
    case Array(element, _) =>
      forall x ensures Has(env, Resolve(element, aliases, seen), x) <==> Has(env, element, x) {
        ResolveMeans(env, element, aliases, seen, x);
      }
    case Object(fields) => if v.Obj? { ResolveFieldsMean(env, fields, aliases, seen, v.entries); }
    case _ =>
  }

  lemma {:induction false} ResolveAllMean(env: Env, ts: seq<TypeAst>, aliases: Aliases, seen: set<string>, v: Value)
    requires Solves(env, aliases)
    ensures HasSome(env, ResolveAll(ts, aliases, seen), v) <==> HasSome(env, ts, v)
    ensures HasAll(env, ResolveAll(ts, aliases, seen), v) <==> HasAll(env, ts, v)
    decreases aliases.Keys - seen, ts
  {
    if ts != [] {
      ResolveMeans(env, ts[0], aliases, seen, v);
      ResolveAllMean(env, ts[1..], aliases, seen, v);
    }
  }

  lemma {:induction false} ResolveArgsMean(env: Env, ts: seq<TypeAst>, aliases: Aliases, seen: set<string>)
    requires Solves(env, aliases)
    ensures MeaningAll(env, ResolveAll(ts, aliases, seen)) == MeaningAll(env, ts)
    decreases aliases.Keys - seen, ts
  {
    if ts != [] {
      var r := Resolve(ts[0], aliases, seen);
      forall v ensures Has(env, r, v) <==> Has(env, ts[0], v) {
        ResolveMeans(env, ts[0], aliases, seen, v);
      }
      SameMeaning(env, r, ts[0]);
      ResolveArgsMean(env, ts[1..], aliases, seen);
    }
  }

  lemma {:induction false} ResolveFieldsMean(env: Env, fs: seq<Field>, aliases: Aliases, seen: set<string>, m: map<string, Value>)
    requires Solves(env, aliases)
    ensures FieldsHold(env, ResolveFields(fs, aliases, seen), m) <==> FieldsHold(env, fs, m)
    decreases aliases.Keys - seen, fs
  {
    if fs != [] {
      if fs[0].name in m { ResolveMeans(env, fs[0].typ, aliases, seen, m[fs[0].name]); }
      ResolveFieldsMean(env, fs[1..], aliases, seen, m);
    }
  }

  // ---------------------------------------------------------------- completeness

  /** No alias is named bare anywhere in the type (opaque parts are text, not references). */
  predicate AliasFree(t: TypeAst, aliases: Aliases) {
    match t
    case Ref(name, args) =>
      (args == [] ==> !Expands(aliases, {}, name)) && forall a :: a in args ==> AliasFree(a, aliases)
    case Union(members) => forall m :: m in members ==> AliasFree(m, aliases)
    case Intersection(members) => forall m :: m in members ==> AliasFree(m, aliases)
    case Array(element, _) => AliasFree(element, aliases)
    case Object(fields) => forall f :: f in fields ==> AliasFree(f.typ, aliases)
    case _ => true
  }

  /** Every alias named bare in `t` ranks below `bound`. */
  predicate RanksBelow(t: TypeAst, aliases: Aliases, rank: map<string, nat>, bound: nat) {
    match t
    case Ref(name, args) =>
      && (args == [] && Expands(aliases, {}, name) ==> name in rank && rank[name] < bound)
      && forall a :: a in args ==> RanksBelow(a, aliases, rank, bound)
    case Union(members) => forall m :: m in members ==> RanksBelow(m, aliases, rank, bound)
    case Intersection(members) => forall m :: m in members ==> RanksBelow(m, aliases, rank, bound)
    case Array(element, _) => RanksBelow(element, aliases, rank, bound)
    case Object(fields) => forall f :: f in fields ==> RanksBelow(f.typ, aliases, rank, bound)
    case _ => true
  }

  /** The ranks order the aliases without a cycle: a body only names aliases of lower rank. */
  ghost predicate Acyclic(aliases: Aliases, rank: map<string, nat>) {
    forall name :: Expands(aliases, {}, name) ==>
      name in rank && RanksBelow(ParseType(aliases[name]), aliases, rank, rank[name])
  }

  /** On a map without cycles every alias is expanded: none is left in the result. */
  lemma {:induction false} ResolveIsComplete(
      t: TypeAst, aliases: Aliases, seen: set<string>, rank: map<string, nat>, bound: nat)
    requires Acyclic(aliases, rank) && RanksBelow(t, aliases, rank, bound)
    requires forall s :: s in seen && s in rank ==> rank[s] >= bound
    ensures AliasFree(Resolve(t, aliases, seen), aliases)
    decreases aliases.Keys - seen, t
  {
    match t
    case Ref(name, args) =>
      if args != [] {
        ResolveAllIsComplete(args, aliases, seen, rank, bound);
      } else if Expands(aliases, seen, name) {
        assert name in aliases.Keys - seen && name !in aliases.Keys - (seen + {name});
        assert Expands(aliases, {}, name);
        ResolveIsComplete(ParseType(aliases[name]), aliases, seen + {name}, rank, rank[name]);
      }
    case Union(members) => ResolveAllIsComplete(members, aliases, seen, rank, bound);
    case Intersection(members) => ResolveAllIsComplete(members, aliases, seen, rank, bound);
    case Array(element, _) => ResolveIsComplete(element, aliases, seen, rank, bound);
    case Object(fields) => ResolveFieldsIsComplete(fields, aliases, seen, rank, bound);
    case _ =>
  }

  lemma {:induction false} ResolveAllIsComplete(
      ts: seq<TypeAst>, aliases: Aliases, seen: set<string>, rank: map<string, nat>, bound: nat)
    requires Acyclic(aliases, rank) && forall t :: t in ts ==> RanksBelow(t, aliases, rank, bound)
    requires forall s :: s in seen && s in rank ==> rank[s] >= bound
    ensures forall r :: r in ResolveAll(ts, aliases, seen) ==> AliasFree(r, aliases)
    decreases aliases.Keys - seen, ts
  {
    if ts != [] {
      ResolveIsComplete(ts[0], aliases, seen, rank, bound);
      ResolveAllIsComplete(ts[1..], aliases, seen, rank, bound);
    }
  }

  lemma {:induction false} ResolveFieldsIsComplete(
      fs: seq<Field>, aliases: Aliases, seen: set<string>, rank: map<string, nat>, bound: nat)
    requires Acyclic(aliases, rank) && forall f :: f in fs ==> RanksBelow(f.typ, aliases, rank, bound)
    requires forall s :: s in seen && s in rank ==> rank[s] >= bound
    ensures forall r :: r in ResolveFields(fs, aliases, seen) ==> AliasFree(r.typ, aliases)
    decreases aliases.Keys - seen, fs
  {
    if fs != [] {
      ResolveIsComplete(fs[0].typ, aliases, seen, rank, bound);
      ResolveFieldsIsComplete(fs[1..], aliases, seen, rank, bound);
    }
  }
}
