/** Three-valued policy conditions and the deny-override decision. */
module Conditions {
  import opened Prelude
  import opened IpAddresses
  import opened Decisions

  datatype AttrPath = PrincipalAal | EnvIp | EnvNow

  datatype Value = Num(n: real) | Str(s: string) | Bool(b: bool) | Time(ms: int)

  datatype Term = Attr(path: AttrPath) | Lit(value: Value)

  datatype CmpOp = Eq | Ne | Lt | Le | Gt | Ge

  datatype Condition =
    | All(children: seq<Condition>)
    | Any(children: seq<Condition>)
    | Not(child: Condition)
    | Cmp(op: CmpOp, left: Term, right: Term)
    | In(needle: Term, set_: seq<Value>)
    | IpInCidr(ip: Term, cidrs: seq<string>)

  datatype Verdict = True | False | Indeterminate

  // An attribute the request does not carry is None.
  datatype Context = Context(aal: Option<real>, ip: Option<string>, now: Option<int>)

  // Conversions of the runtime: timestamps in milliseconds, and integers, None when the text is neither.
  datatype Runtime = Runtime(parseDate: string -> Option<int>, number: string -> Option<int>)

  function Of(b: bool): Verdict { if b then True else False }

  function ResolveTerm(term: Term, ctx: Context): Option<Value> {
    match term
    case Lit(v) => Some(v)
    case Attr(PrincipalAal) => if ctx.aal.Some? then Some(Num(ctx.aal.value)) else None
    case Attr(EnvIp) => if ctx.ip.Some? then Some(Str(ctx.ip.value)) else None
    case Attr(EnvNow) => if ctx.now.Some? then Some(Time(ctx.now.value)) else None
  }

  function ToEpoch(v: Value, rt: Runtime): Option<int> {
    match v
    case Time(ms) => Some(ms)
    case Str(s) => rt.parseDate(s)
    case _ => None
  }

  function Ordered(op: CmpOp, l: real, r: real): Verdict {
    match op
    case Eq => Of(l == r)
    case Ne => Of(l != r)
    case Lt => Of(l < r)
    case Le => Of(l <= r)
    case Gt => Of(l > r)
    case Ge => Of(l >= r)
  }

  function Equality(op: CmpOp, same: bool): Verdict {
    match op
    case Eq => Of(same)
    case Ne => Of(!same)
    case _ => Indeterminate
  }

  function Compare(op: CmpOp, left: Option<Value>, right: Option<Value>, rt: Runtime): Verdict {
    if left.None? || right.None? then Indeterminate
    else if left.value.Time? || right.value.Time? then
      var l, r := ToEpoch(left.value, rt), ToEpoch(right.value, rt);
      if l.None? || r.None? then Indeterminate else Ordered(op, l.value as real, r.value as real)
    else match (left.value, right.value)
    case (Num(a), Num(b)) => Ordered(op, a, b)
    case (Str(a), Str(b)) => Equality(op, a == b)
    case (Bool(a), Bool(b)) => Equality(op, a == b)
    case _ => Indeterminate
  }

  function EvalIn(needle: Option<Value>, set_: seq<Value>): Verdict {
    if needle.None? then Indeterminate
    else if !needle.value.Str? && !needle.value.Num? then Indeterminate
    else Of(needle.value in set_)
  }

  function EvalIpInCidr(value: Option<Value>, cidrs: seq<string>, rt: Runtime): Verdict {
    if value.None? || !value.value.Str? then Indeterminate
    else
      var ip := ParseIp(value.value.s);
      if ip.None? then Indeterminate
      else Of(exists c | c in cidrs :: ContainedIn(ip.value, c, rt.number))
  }

  // ----- Strong Kleene logic over a tree of leaf verdicts -----

  datatype Formula = Leaf(v: Verdict) | FAll(fs: seq<Formula>) | FAny(fs: seq<Formula>) | FNot(f: Formula)

  // A conjunction is false when some operand is, true when all are, and open otherwise; dually for a disjunction.
  ghost function Kleene(f: Formula): Verdict {
    match f
    case Leaf(v) => v
    case FAll(fs) =>
      if exists g | g in fs :: Kleene(g) == False then False
      else if forall g | g in fs :: Kleene(g) == True then True else Indeterminate
    case FAny(fs) =>
      if exists g | g in fs :: Kleene(g) == True then True
      else if forall g | g in fs :: Kleene(g) == False then False else Indeterminate
    case FNot(g) =>
      match Kleene(g) case True => False case False => True case Indeterminate => Indeterminate
  }

  // A condition with its leaves evaluated in a context.
  function Resolve(c: Condition, ctx: Context, rt: Runtime): Formula {
    match c
    case All(cs) => FAll(ResolveAll(cs, ctx, rt))
    case Any(cs) => FAny(ResolveAll(cs, ctx, rt))
    case Not(d) => FNot(Resolve(d, ctx, rt))
    case Cmp(op, l, r) => Leaf(Compare(op, ResolveTerm(l, ctx), ResolveTerm(r, ctx), rt))
    case In(n, s) => Leaf(EvalIn(ResolveTerm(n, ctx), s))
    case IpInCidr(ip, cidrs) => Leaf(EvalIpInCidr(ResolveTerm(ip, ctx), cidrs, rt))
  }

  function ResolveAll(cs: seq<Condition>, ctx: Context, rt: Runtime): (fs: seq<Formula>)
    ensures |fs| == |cs| && forall i | 0 <= i < |cs| :: fs[i] == Resolve(cs[i], ctx, rt)
  {
    if cs == [] then [] else [Resolve(cs[0], ctx, rt)] + ResolveAll(cs[1..], ctx, rt)
  }

  function KleeneAnd(a: Verdict, b: Verdict): Verdict {
    if a == False || b == False then False else if a == True && b == True then True else Indeterminate
  }

  function KleeneOr(a: Verdict, b: Verdict): Verdict {
    if a == True || b == True then True else if a == False && b == False then False else Indeterminate
  }

  lemma OneMoreOperand(fs: seq<Formula>, i: nat)
    requires i < |fs|
    ensures Kleene(FAll(fs[..i + 1])) == KleeneAnd(Kleene(FAll(fs[..i])), Kleene(fs[i]))
    ensures Kleene(FAny(fs[..i + 1])) == KleeneOr(Kleene(FAny(fs[..i])), Kleene(fs[i]))
  {
    assert fs[..i + 1] == fs[..i] + [fs[i]];
    assert forall g :: g in fs[..i + 1] <==> g in fs[..i] || g == fs[i];
  }

  lemma DecisiveOperand(fs: seq<Formula>, i: nat)
    requires i < |fs|
    ensures Kleene(fs[i]) == False ==> Kleene(FAll(fs)) == False
    ensures Kleene(fs[i]) == True ==> Kleene(FAny(fs)) == True
  {
    assert fs[i] in fs;
  }

  // ----- What a condition means, independently of the evaluator -----

  // The value the term has in the request.
  ghost predicate Denotes(term: Term, ctx: Context, v: Value) {
    || term == Lit(v)
    || (term == Attr(PrincipalAal) && v.Num? && ctx.aal == Some(v.n))
    || (term == Attr(EnvIp) && v.Str? && ctx.ip == Some(v.s))
    || (term == Attr(EnvNow) && v.Time? && ctx.now == Some(v.ms))
  }

  // A time, or a text that can be read as one.
  ghost predicate IsInstant(v: Value, rt: Runtime, ms: int) {
    v == Time(ms) || (v.Str? && rt.parseDate(v.s) == Some(ms))
  }

  // Two numbers, or a time and something that can be read as one: what has an order.
  ghost predicate HaveOrder(l: Value, r: Value, rt: Runtime) {
    || (l.Num? && r.Num?)
    || ((l.Time? || r.Time?) && (exists a :: IsInstant(l, rt, a)) && exists b :: IsInstant(r, rt, b))
  }

  ghost predicate Less(l: Value, r: Value, rt: Runtime) {
    || (l.Num? && r.Num? && l.n < r.n)
    || ((l.Time? || r.Time?) && exists a, b :: IsInstant(l, rt, a) && IsInstant(r, rt, b) && a < b)
  }

  // What can be equal: also two texts or two booleans.
  ghost predicate HaveEquality(l: Value, r: Value, rt: Runtime) {
    HaveOrder(l, r, rt) || (l.Str? && r.Str?) || (l.Bool? && r.Bool?)
  }

  ghost predicate Same(l: Value, r: Value, rt: Runtime) {
    if l.Time? || r.Time? then exists a :: IsInstant(l, rt, a) && IsInstant(r, rt, a) else l == r
  }

  ghost predicate CmpIsTrue(op: CmpOp, l: Value, r: Value, rt: Runtime) {
    match op
    case Eq => HaveEquality(l, r, rt) && Same(l, r, rt)
    case Ne => HaveEquality(l, r, rt) && !Same(l, r, rt)
    case Lt => HaveOrder(l, r, rt) && Less(l, r, rt)
    case Le => HaveOrder(l, r, rt) && !Less(r, l, rt)
    case Gt => HaveOrder(l, r, rt) && Less(r, l, rt)
    case Ge => HaveOrder(l, r, rt) && !Less(l, r, rt)
  }

  ghost predicate CmpIsFalse(op: CmpOp, l: Value, r: Value, rt: Runtime) {
    match op
    case Eq => HaveEquality(l, r, rt) && !Same(l, r, rt)
    case Ne => HaveEquality(l, r, rt) && Same(l, r, rt)
    case Lt => HaveOrder(l, r, rt) && !Less(l, r, rt)
    case Le => HaveOrder(l, r, rt) && Less(r, l, rt)
    case Gt => HaveOrder(l, r, rt) && !Less(r, l, rt)
    case Ge => HaveOrder(l, r, rt) && Less(l, r, rt)
  }

  ghost predicate InSomeBlock(text: string, cidrs: seq<string>, rt: Runtime) {
    ParseIp(text).Some? && exists c | c in cidrs :: ContainedIn(ParseIp(text).value, c, rt.number)
  }

  // Conjunctions hold when all operands do and fail when one does, disjunctions dually, and
  // negation swaps; a leaf does neither when a value is missing or does not fit.
  ghost predicate IsTrue(c: Condition, ctx: Context, rt: Runtime) {
    match c
    case All(cs) => forall d | d in cs :: IsTrue(d, ctx, rt)
    case Any(cs) => exists d | d in cs :: IsTrue(d, ctx, rt)
    case Not(d) => IsFalse(d, ctx, rt)
    case Cmp(op, left, right) =>
      exists l, r :: Denotes(left, ctx, l) && Denotes(right, ctx, r) && CmpIsTrue(op, l, r, rt)
    case In(needle, set_) => exists v :: Denotes(needle, ctx, v) && (v.Str? || v.Num?) && v in set_
    case IpInCidr(ip, cidrs) => exists v :: Denotes(ip, ctx, v) && v.Str? && InSomeBlock(v.s, cidrs, rt)
  }

  ghost predicate IsFalse(c: Condition, ctx: Context, rt: Runtime) {
    match c
    case All(cs) => exists d | d in cs :: IsFalse(d, ctx, rt)
    case Any(cs) => forall d | d in cs :: IsFalse(d, ctx, rt)
    case Not(d) => IsTrue(d, ctx, rt)
    case Cmp(op, left, right) =>
      exists l, r :: Denotes(left, ctx, l) && Denotes(right, ctx, r) && CmpIsFalse(op, l, r, rt)
    case In(needle, set_) => exists v :: Denotes(needle, ctx, v) && (v.Str? || v.Num?) && v !in set_
    case IpInCidr(ip, cidrs) =>
      exists v :: Denotes(ip, ctx, v) && v.Str? && ParseIp(v.s).Some? && !InSomeBlock(v.s, cidrs, rt)
  }

  lemma TermDenotes(term: Term, ctx: Context, v: Value)
    ensures Denotes(term, ctx, v) <==> ResolveTerm(term, ctx) == Some(v)
  {
  }

  lemma InstantIs(v: Value, rt: Runtime, ms: int)
    ensures IsInstant(v, rt, ms) <==> ToEpoch(v, rt) == Some(ms)
  {
  }

  lemma OrdersAre(l: Value, r: Value, rt: Runtime)
    ensures HaveOrder(l, r, rt) <==>
              (l.Num? && r.Num?) || ((l.Time? || r.Time?) && ToEpoch(l, rt).Some? && ToEpoch(r, rt).Some?)
    ensures Less(l, r, rt) <==>
              || (l.Num? && r.Num? && l.n < r.n)
              || ((l.Time? || r.Time?) && ToEpoch(l, rt).Some? && ToEpoch(r, rt).Some?
                  && ToEpoch(l, rt).value < ToEpoch(r, rt).value)
    ensures l.Time? || r.Time? ==>
              (Same(l, r, rt) <==> ToEpoch(l, rt).Some? && ToEpoch(l, rt) == ToEpoch(r, rt))
  {
    forall ms ensures IsInstant(l, rt, ms) <==> ToEpoch(l, rt) == Some(ms) { InstantIs(l, rt, ms); }
    forall ms ensures IsInstant(r, rt, ms) <==> ToEpoch(r, rt) == Some(ms) { InstantIs(r, rt, ms); }
    if ToEpoch(l, rt).Some? { assert IsInstant(l, rt, ToEpoch(l, rt).value); }
    if ToEpoch(r, rt).Some? { assert IsInstant(r, rt, ToEpoch(r, rt).value); }
  }

  // A comparison of two values: true and false exactly as their order or equality says, and
  // indeterminate when they have none.
  lemma CompareMeans(op: CmpOp, l: Value, r: Value, rt: Runtime)
    ensures Compare(op, Some(l), Some(r), rt) == True <==> CmpIsTrue(op, l, r, rt)
    ensures Compare(op, Some(l), Some(r), rt) == False <==> CmpIsFalse(op, l, r, rt)
  {
    OrdersAre(l, r, rt);
    OrdersAre(r, l, rt);
  }

  lemma CmpMeans(op: CmpOp, left: Term, right: Term, ctx: Context, rt: Runtime)
    ensures var v := Compare(op, ResolveTerm(left, ctx), ResolveTerm(right, ctx), rt);
            && (v == True <==> IsTrue(Cmp(op, left, right), ctx, rt))
            && (v == False <==> IsFalse(Cmp(op, left, right), ctx, rt))
  {
    forall l, r ensures Denotes(left, ctx, l) && Denotes(right, ctx, r)
      <==> ResolveTerm(left, ctx) == Some(l) && ResolveTerm(right, ctx) == Some(r)
    {
      TermDenotes(left, ctx, l);
      TermDenotes(right, ctx, r);
    }
    if ResolveTerm(left, ctx).Some? && ResolveTerm(right, ctx).Some? {
      var l, r := ResolveTerm(left, ctx).value, ResolveTerm(right, ctx).value;
      CompareMeans(op, l, r, rt);
      assert Denotes(left, ctx, l) && Denotes(right, ctx, r);
    }
  }

  lemma InMeans(needle: Term, set_: seq<Value>, ctx: Context, rt: Runtime)
    ensures var v := EvalIn(ResolveTerm(needle, ctx), set_);
            && (v == True <==> IsTrue(In(needle, set_), ctx, rt))
            && (v == False <==> IsFalse(In(needle, set_), ctx, rt))
  {
    forall v ensures Denotes(needle, ctx, v) <==> ResolveTerm(needle, ctx) == Some(v) { TermDenotes(needle, ctx, v); }
    if ResolveTerm(needle, ctx).Some? { assert Denotes(needle, ctx, ResolveTerm(needle, ctx).value); }
  }

  lemma IpInCidrMeans(ip: Term, cidrs: seq<string>, ctx: Context, rt: Runtime)
    ensures var v := EvalIpInCidr(ResolveTerm(ip, ctx), cidrs, rt);
            && (v == True <==> IsTrue(IpInCidr(ip, cidrs), ctx, rt))
            && (v == False <==> IsFalse(IpInCidr(ip, cidrs), ctx, rt))
  {
    forall v ensures Denotes(ip, ctx, v) <==> ResolveTerm(ip, ctx) == Some(v) { TermDenotes(ip, ctx, v); }
    if ResolveTerm(ip, ctx).Some? { assert Denotes(ip, ctx, ResolveTerm(ip, ctx).value); }
  }

  // The strong Kleene value of the resolved condition is what the condition means.
  lemma {:induction false} ResolvedMeans(c: Condition, ctx: Context, rt: Runtime)
    ensures Kleene(Resolve(c, ctx, rt)) == True <==> IsTrue(c, ctx, rt)
    ensures Kleene(Resolve(c, ctx, rt)) == False <==> IsFalse(c, ctx, rt)
    decreases c
  {
    match c
    case All(cs) => ResolvedAllMean(cs, ctx, rt);
    case Any(cs) => ResolvedAllMean(cs, ctx, rt);
    case Not(d) => ResolvedMeans(d, ctx, rt);
    case Cmp(op, left, right) => CmpMeans(op, left, right, ctx, rt);
    case In(needle, set_) => InMeans(needle, set_, ctx, rt);
    case IpInCidr(ip, cidrs) => IpInCidrMeans(ip, cidrs, ctx, rt);
  }

  lemma {:induction false} ResolvedAllMean(cs: seq<Condition>, ctx: Context, rt: Runtime)
    ensures var fs := ResolveAll(cs, ctx, rt);
            && ((exists f | f in fs :: Kleene(f) == True) <==> exists d | d in cs :: IsTrue(d, ctx, rt))
            && ((exists f | f in fs :: Kleene(f) == False) <==> exists d | d in cs :: IsFalse(d, ctx, rt))
            && ((forall f | f in fs :: Kleene(f) == True) <==> forall d | d in cs :: IsTrue(d, ctx, rt))
            && ((forall f | f in fs :: Kleene(f) == False) <==> forall d | d in cs :: IsFalse(d, ctx, rt))
    decreases cs
  {
    if cs != [] {
      ResolvedMeans(cs[0], ctx, rt);
      ResolvedAllMean(cs[1..], ctx, rt);
      var fs := ResolveAll(cs, ctx, rt);
      assert forall d :: d in cs <==> d == cs[0] || d in cs[1..];
      assert forall f :: f in fs <==> f == Resolve(cs[0], ctx, rt) || f in ResolveAll(cs[1..], ctx, rt);
    }
  }

  // The short-circuiting evaluator computes the strong Kleene value, which is what the condition means.
  method EvalCondition(c: Condition, ctx: Context, rt: Runtime) returns (v: Verdict)
    ensures v == Kleene(Resolve(c, ctx, rt))
    ensures (v == True <==> IsTrue(c, ctx, rt)) && (v == False <==> IsFalse(c, ctx, rt))
    decreases c
  {
    ResolvedMeans(c, ctx, rt);
    match c
    case All(children) => v := EvalAll(children, ctx, rt);
    case Any(children) => v := EvalAny(children, ctx, rt);
    case Not(child) =>
      var verdict := EvalCondition(child, ctx, rt);
      v := if verdict == Indeterminate then Indeterminate else if verdict == True then False else True;
    case Cmp(op, left, right) =>
      v := Compare(op, ResolveTerm(left, ctx), ResolveTerm(right, ctx), rt);
    case In(needle, set_) =>
      v := EvalIn(ResolveTerm(needle, ctx), set_);
    case IpInCidr(ip, cidrs) =>
      v := EvalIpInCidr(ResolveTerm(ip, ctx), cidrs, rt);
  }

  method EvalAll(children: seq<Condition>, ctx: Context, rt: Runtime) returns (v: Verdict)
    ensures v == Kleene(FAll(ResolveAll(children, ctx, rt)))
    decreases children
  {
    ghost var fs := ResolveAll(children, ctx, rt);
    v := True;
    for i := 0 to |children|
      invariant v != False && v == Kleene(FAll(fs[..i]))
    {
      OneMoreOperand(fs, i);
      var verdict := EvalCondition(children[i], ctx, rt);
      if verdict == False {
        DecisiveOperand(fs, i);
        return False;
      }
      if verdict == Indeterminate { v := Indeterminate; }
    }
    assert fs[..|children|] == fs;
  }

  method EvalAny(children: seq<Condition>, ctx: Context, rt: Runtime) returns (v: Verdict)
    ensures v == Kleene(FAny(ResolveAll(children, ctx, rt)))
    decreases children
  {
    ghost var fs := ResolveAll(children, ctx, rt);
    v := False;
    for i := 0 to |children|
      invariant v != True && v == Kleene(FAny(fs[..i]))
    {
      OneMoreOperand(fs, i);
      var verdict := EvalCondition(children[i], ctx, rt);
      if verdict == True {
        DecisiveOperand(fs, i);
        return True;
      }
      if verdict == Indeterminate { v := Indeterminate; }
    }
    assert fs[..|children|] == fs;
  }

  // The order of children does not matter.
  lemma ChildOrderIrrelevant(fs: seq<Formula>, gs: seq<Formula>)
    requires forall f :: f in fs <==> f in gs
    ensures Kleene(FAll(fs)) == Kleene(FAll(gs)) && Kleene(FAny(fs)) == Kleene(FAny(gs))
  {
  }

  // `f` is `g` with some leaves turned indeterminate.
  ghost predicate LessKnown(f: Formula, g: Formula) {
    match (f, g)
    case (Leaf(v), Leaf(w)) => v == w || v == Indeterminate
    case (FAll(fs), FAll(gs)) => |fs| == |gs| && forall i | 0 <= i < |fs| :: LessKnown(fs[i], gs[i])
    case (FAny(fs), FAny(gs)) => |fs| == |gs| && forall i | 0 <= i < |fs| :: LessKnown(fs[i], gs[i])
    case (FNot(a), FNot(b)) => LessKnown(a, b)
    case _ => false
  }

  // Forgetting leaves keeps the verdict or makes it indeterminate, under any nesting.
  lemma {:induction false} LessKnownVerdict(f: Formula, g: Formula)
    requires LessKnown(f, g)
    ensures Kleene(f) == Kleene(g) || Kleene(f) == Indeterminate
  {
    match (f, g)
    case (FNot(a), FNot(b)) => LessKnownVerdict(a, b);
    case (FAll(fs), FAll(gs)) => LessKnownVerdicts(fs, gs);
    case (FAny(fs), FAny(gs)) => LessKnownVerdicts(fs, gs);
    case _ =>
  }

  lemma {:induction false} LessKnownVerdicts(fs: seq<Formula>, gs: seq<Formula>)
    requires |fs| == |gs| && forall i | 0 <= i < |fs| :: LessKnown(fs[i], gs[i])
    ensures forall f | f in fs :: exists g | g in gs :: Kleene(f) == Kleene(g) || Kleene(f) == Indeterminate
    ensures forall g | g in gs :: exists f | f in fs :: Kleene(f) == Kleene(g) || Kleene(f) == Indeterminate
  {
    forall i | 0 <= i < |fs| ensures Kleene(fs[i]) == Kleene(gs[i]) || Kleene(fs[i]) == Indeterminate {
      LessKnownVerdict(fs[i], gs[i]);
    }
    forall f | f in fs ensures exists g | g in gs :: Kleene(f) == Kleene(g) || Kleene(f) == Indeterminate {
      var i :| 0 <= i < |fs| && fs[i] == f;
      assert gs[i] in gs;
    }
    forall g | g in gs ensures exists f | f in fs :: Kleene(f) == Kleene(g) || Kleene(f) == Indeterminate {
      var i :| 0 <= i < |gs| && gs[i] == g;
      assert fs[i] in fs;
    }
  }

  // ----- Deny-override -----

  datatype PolicyEffect = PermitPolicy | ForbidPolicy

  datatype Policy = Policy(
    id: string, orgId: string, effect: PolicyEffect, resourceType: string, action: string, condition: Condition)

  // A policy with its condition's leaves evaluated.
  datatype Ruling = Ruling(id: string, effect: PolicyEffect, formula: Formula)

  function Rulings(policies: seq<Policy>, ctx: Context, rt: Runtime): (rs: seq<Ruling>)
    ensures |rs| == |policies|
    ensures forall i | 0 <= i < |rs| ::
              rs[i] == Ruling(policies[i].id, policies[i].effect, Resolve(policies[i].condition, ctx, rt))
  {
    seq(|policies|, i requires 0 <= i < |policies| =>
      Ruling(policies[i].id, policies[i].effect, Resolve(policies[i].condition, ctx, rt)))
  }

  ghost predicate Forbids(r: Ruling) { r.effect == ForbidPolicy && Kleene(r.formula) != False }

  ghost predicate Permits(r: Ruling) { r.effect == PermitPolicy && Kleene(r.formula) == True }

  ghost predicate AnyForbid(rs: seq<Ruling>) { exists r | r in rs :: Forbids(r) }

  ghost predicate AnyPermit(rs: seq<Ruling>) { exists r | r in rs :: Permits(r) }

  // Deny if anything forbids, else permit if relationships or a policy permit, else deny.
  ghost function DecidedEffect(rebac: Effect, rs: seq<Ruling>): Effect {
    if AnyForbid(rs) then Deny else if rebac == Permit || AnyPermit(rs) then Permit else Deny
  }

  // The first ruling that forbids, and the first that permits.
  ghost function FirstForbid(rs: seq<Ruling>): Option<string> {
    if rs == [] then None else if Forbids(rs[0]) then Some(rs[0].id) else FirstForbid(rs[1..])
  }

  ghost function FirstPermit(rs: seq<Ruling>): Option<string> {
    if rs == [] then None else if Permits(rs[0]) then Some(rs[0].id) else FirstPermit(rs[1..])
  }

  ghost function DecideOn(rebac: Decision, rs: seq<Ruling>): Decision {
    if FirstForbid(rs).Some? then DenyWith([ForbidMatched(FirstForbid(rs).value)])
    else if rebac.effect == Permit then rebac
    else if FirstPermit(rs).Some? then PermitWith(GrantPolicy(FirstPermit(rs).value))
    else rebac
  }

  lemma {:induction false} FirstExists(rs: seq<Ruling>)
    ensures FirstForbid(rs).Some? <==> AnyForbid(rs)
    ensures FirstPermit(rs).Some? <==> AnyPermit(rs)
    ensures FirstForbid(rs).Some? ==> exists r | r in rs :: Forbids(r) && FirstForbid(rs) == Some(r.id)
    ensures FirstPermit(rs).Some? ==> exists r | r in rs :: Permits(r) && FirstPermit(rs) == Some(r.id)
  {
    if rs != [] {
      FirstExists(rs[1..]);
      assert forall r :: r in rs <==> r == rs[0] || r in rs[1..];
    }
  }

  method Decide(rebac: Decision, policies: seq<Policy>, ctx: Context, rt: Runtime) returns (d: Decision)
    ensures d == DecideOn(rebac, Rulings(policies, ctx, rt))
  {
    ghost var rs := Rulings(policies, ctx, rt);
    for i := 0 to |policies|
      invariant FirstForbid(rs) == FirstForbid(rs[i..])
    {
      assert rs[i..][1..] == rs[i + 1..];
      if policies[i].effect == ForbidPolicy {
        var v := EvalCondition(policies[i].condition, ctx, rt);
        if v != False { return DenyWith([ForbidMatched(policies[i].id)]); }
      }
    }
    if rebac.effect == Permit { return rebac; }
    for i := 0 to |policies|
      invariant FirstPermit(rs) == FirstPermit(rs[i..])
    {
      assert rs[i..][1..] == rs[i + 1..];
      if policies[i].effect == PermitPolicy {
        var v := EvalCondition(policies[i].condition, ctx, rt);
        if v == True { return PermitWith(GrantPolicy(policies[i].id)); }
      }
    }
    return rebac;
  }

  lemma DecisionEffect(rebac: Decision, rs: seq<Ruling>)
    ensures DecideOn(rebac, rs).effect == DecidedEffect(rebac.effect, rs)
  {
    FirstExists(rs);
  }

  ghost predicate ForbidsIn(p: Policy, ctx: Context, rt: Runtime) {
    p.effect == ForbidPolicy && !IsFalse(p.condition, ctx, rt)
  }

  ghost predicate PermitsIn(p: Policy, ctx: Context, rt: Runtime) {
    p.effect == PermitPolicy && IsTrue(p.condition, ctx, rt)
  }

  lemma RulingsMean(policies: seq<Policy>, ctx: Context, rt: Runtime)
    ensures var rs := Rulings(policies, ctx, rt);
            && (forall p | p in policies && ForbidsIn(p, ctx, rt) :: exists r | r in rs :: Forbids(r))
            && (forall p | p in policies && PermitsIn(p, ctx, rt) :: exists r | r in rs :: Permits(r))
            && (forall r | r in rs && Forbids(r) :: exists p | p in policies :: ForbidsIn(p, ctx, rt) && p.id == r.id)
            && (forall r | r in rs && Permits(r) :: exists p | p in policies :: PermitsIn(p, ctx, rt) && p.id == r.id)
  {
    var rs := Rulings(policies, ctx, rt);
    forall i | 0 <= i < |policies|
      ensures rs[i].id == policies[i].id
      ensures Forbids(rs[i]) <==> ForbidsIn(policies[i], ctx, rt)
      ensures Permits(rs[i]) <==> PermitsIn(policies[i], ctx, rt)
    {
      ResolvedMeans(policies[i].condition, ctx, rt);
    }
    forall p | p in policies && ForbidsIn(p, ctx, rt) ensures exists r | r in rs :: Forbids(r) {
      var i :| 0 <= i < |policies| && policies[i] == p;
      assert rs[i] in rs;
    }
    forall p | p in policies && PermitsIn(p, ctx, rt) ensures exists r | r in rs :: Permits(r) {
      var i :| 0 <= i < |policies| && policies[i] == p;
      assert rs[i] in rs;
    }
    forall r | r in rs && Forbids(r) ensures exists p | p in policies :: ForbidsIn(p, ctx, rt) && p.id == r.id {
      var i :| 0 <= i < |rs| && rs[i] == r;
      assert policies[i] in policies;
    }
    forall r | r in rs && Permits(r) ensures exists p | p in policies :: PermitsIn(p, ctx, rt) && p.id == r.id {
      var i :| 0 <= i < |rs| && rs[i] == r;
      assert policies[i] in policies;
    }
  }

  // The reasons name what decided: a forbidding policy, else the relationships as they were, or a
  // permitting policy.
  lemma ReasonsNamePolicies(rebac: Decision, policies: seq<Policy>, ctx: Context, rt: Runtime)
    ensures var d := DecideOn(rebac, Rulings(policies, ctx, rt));
            if exists p | p in policies :: ForbidsIn(p, ctx, rt) then
              exists p | p in policies :: ForbidsIn(p, ctx, rt) && d == DenyWith([ForbidMatched(p.id)])
            else if rebac.effect == Deny && exists p | p in policies :: PermitsIn(p, ctx, rt) then
              exists p | p in policies :: PermitsIn(p, ctx, rt) && d == PermitWith(GrantPolicy(p.id))
            else d == rebac
  {
    RulingsMean(policies, ctx, rt);
    FirstExists(Rulings(policies, ctx, rt));
  }

  // A decision permits if and only if no forbidding policy's condition holds or is open, and
  // relationships permit or some permitting policy's condition holds.
  lemma PoliciesDecide(rebac: Decision, policies: seq<Policy>, ctx: Context, rt: Runtime)
    ensures DecideOn(rebac, Rulings(policies, ctx, rt)).effect == Permit
       <==> && (forall p | p in policies && p.effect == ForbidPolicy :: IsFalse(p.condition, ctx, rt))
            && (|| rebac.effect == Permit
                || exists p | p in policies :: p.effect == PermitPolicy && IsTrue(p.condition, ctx, rt))
  {
    DecisionEffect(rebac, Rulings(policies, ctx, rt));
    RulingsMean(policies, ctx, rt);
    assert forall p :: ForbidsIn(p, ctx, rt) <==> p.effect == ForbidPolicy && !IsFalse(p.condition, ctx, rt);
    assert forall p :: PermitsIn(p, ctx, rt) <==> p.effect == PermitPolicy && IsTrue(p.condition, ctx, rt);
  }

  // The effect depends on which policies there are, not on their order or repetition.
  lemma PolicyOrderIrrelevant(rebac: Decision, rs: seq<Ruling>, rs': seq<Ruling>)
    requires forall r :: r in rs <==> r in rs'
    ensures DecideOn(rebac, rs).effect == DecideOn(rebac, rs').effect
  {
    DecisionEffect(rebac, rs);
    DecisionEffect(rebac, rs');
  }

  // Turning any leaves indeterminate, in any policies, never turns a denial into a permit.
  lemma ForgettingNeverPermits(rebac: Decision, rs: seq<Ruling>, known: seq<Ruling>)
    requires |rs| == |known|
    requires forall i | 0 <= i < |rs| :: rs[i].effect == known[i].effect && LessKnown(rs[i].formula, known[i].formula)
    requires DecideOn(rebac, rs).effect == Permit
    ensures DecideOn(rebac, known).effect == Permit
  {
    DecisionEffect(rebac, rs);
    DecisionEffect(rebac, known);
    forall i | 0 <= i < |rs|
      ensures (Forbids(known[i]) ==> Forbids(rs[i])) && (Permits(rs[i]) ==> Permits(known[i]))
    {
      LessKnownVerdict(rs[i].formula, known[i].formula);
    }
    forall i | 0 <= i < |known| ensures !Forbids(known[i]) { assert rs[i] in rs; }
    if AnyPermit(rs) {
      var i :| 0 <= i < |rs| && Permits(rs[i]);
      assert known[i] in known;
    }
  }

  // With no applicable policy the decision is the relationship decision, whatever the context.
  lemma NoPolicyNoContext(rebac: Decision, ctx: Context, rt: Runtime)
    ensures DecideOn(rebac, Rulings([], ctx, rt)) == rebac
  {
  }
}
