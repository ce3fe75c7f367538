/** Queries, decisions, and the decision function over a snapshot. */
module Decisions {
  import opened Prelude
  import opened Refs
  import opened Snapshots
  import opened Walks
  import opened Semantics
  import opened Exactness
  import opened Derivations
  import opened Transparency

  datatype Action = Action(namespace: string, verb: string)

  datatype Query = Query(orgId: string, subject: EntityRef, action: Action, resource: EntityRef)

  datatype Effect = Permit | Deny

  // Reason codes; the message texts are not modelled.
  datatype Reason =
    | OrgMismatch | UnknownAction | DefaultDeny | WalkTruncated
    | Granted(code: GrantCode, relation: string, path: seq<TupleKey>)
    | ForbidMatched(policy: string) | GrantPolicy(policy: string)
    | NoOrgContext | ConsistencyUnavailable

  datatype Decision = Decision(effect: Effect, reasons: seq<Reason>)

  function DenyWith(reasons: seq<Reason>): Decision { Decision(Deny, reasons) }

  function PermitWith(reason: Reason): Decision { Decision(Permit, [reason]) }

  function RequiredRelations(namespaces: Registry, action: Action, resource: EntityRef): seq<string> {
    if resource.kind !in namespaces then []
    else
      var definition := namespaces[resource.kind];
      if action.namespace == definition.namespace && action.verb in definition.config.actions
      then definition.config.actions[action.verb] else []
  }

  datatype Attempt = Attempt(found: Option<Reason>, truncated: bool)

  // The required relations in order, each walked with a fresh visited set, one truncation flag.
  function TryRelations(s: Snapshot, resource: EntityRef, required: seq<string>, subject: EntityRef): Attempt
    requires Ranked(s.graph.namespaces)
  {
    if required == [] then Attempt(None, false)
    else
      var w := Derive(s, Node(resource, required[0]), subject, 0, {});
      if w.grant.Some? then
        Attempt(Some(Granted(w.grant.value.code, required[0], w.grant.value.path)), w.truncated)
      else
        var rest := TryRelations(s, resource, required[1..], subject);
        rest.(truncated := w.truncated || rest.truncated)
  }

  function Evaluate(q: Query, s: Snapshot): Decision
    requires Ranked(s.graph.namespaces)
  {
    if s.orgId != q.orgId then DenyWith([OrgMismatch])
    else if exists k | k in s.graph.namespaces :: s.graph.namespaces[k].orgId != q.orgId then DenyWith([OrgMismatch])
    else
      var required := RequiredRelations(s.graph.namespaces, q.action, q.resource);
      if required == [] then DenyWith([UnknownAction])
      else
        var a := TryRelations(s, q.resource, required, q.subject);
        if a.found.Some? then PermitWith(a.found.value)
        else DenyWith(if a.truncated then [DefaultDeny, WalkTruncated] else [DefaultDeny])
  }

  // The snapshot holds only the query's organization.
  ghost predicate SameOrg(q: Query, s: Snapshot) {
    s.orgId == q.orgId && forall k | k in s.graph.namespaces :: s.graph.namespaces[k].orgId == q.orgId
  }

  ghost predicate Requires(q: Query, s: Snapshot, relation: string) {
    relation in RequiredRelations(s.graph.namespaces, q.action, q.resource)
  }

  lemma {:induction false} TriedRelations(s: Snapshot, resource: EntityRef, required: seq<string>, subject: EntityRef)
    requires Ranked(s.graph.namespaces)
    ensures var a := TryRelations(s, resource, required, subject);
            && (a.found.Some? <==> exists r | r in required :: Derive(s, Node(resource, r), subject, 0, {}).grant.Some?)
            && (a.found.None? && !a.truncated
              <==> forall r | r in required :: Denies(Derive(s, Node(resource, r), subject, 0, {})))
    ensures var a := TryRelations(s, resource, required, subject);
            a.found.Some? ==> a.found.value.Granted? && a.found.value.relation in required
  {
    if required != [] {
      assert forall r :: r in required <==> r == required[0] || r in required[1..];
      TriedRelations(s, resource, required[1..], subject);
    }
  }

  // ----- Decisions are exact -----

  // In every partial stable model: a permit rests on a certain membership in a required
  // relation, a denial without `walk_truncated` on none being even possible, and nothing is
  // ever granted across organizations.
  lemma EvaluateIsExact(q: Query, s: Snapshot, lower: Interpretation, upper: Interpretation)
    requires Model(s, q.subject, lower, upper)
    ensures var d := Evaluate(q, s);
            && (d.effect == Permit ==>
                  SameOrg(q, s) && exists r :: Requires(q, s, r) && Node(q.resource, r) in lower)
            && (SameOrg(q, s) && d.effect == Deny && WalkTruncated !in d.reasons ==>
                  forall r | Requires(q, s, r) :: Node(q.resource, r) !in upper)
  {
    var required := RequiredRelations(s.graph.namespaces, q.action, q.resource);
    TriedRelations(s, q.resource, required, q.subject);
    forall r: string ensures
      var w := Derive(s, Node(q.resource, r), q.subject, 0, {});
      && (w.grant.Some? ==> Node(q.resource, r) in lower)
      && (Denies(w) ==> Node(q.resource, r) !in upper)
    {
      WalkIsExact(s, q.subject, lower, upper, Node(q.resource, r));
    }
    if Evaluate(q, s).effect == Permit {
      var r :| r in required && Derive(s, Node(q.resource, r), q.subject, 0, {}).grant.Some?;
      assert Requires(q, s, r);
    }
  }

  // Exclusion-free: permits are exactly as deep as the bound allows, and permits and
  // untruncated denials decide membership in the least fixed point.
  lemma ExclusionFreeExactness(q: Query, s: Snapshot)
    requires Ranked(s.graph.namespaces) && ExclusionFreeGraph(s.graph) && s.memberships.None? && SameOrg(q, s)
    ensures var d := Evaluate(q, s);
            var m := Members(s.graph, q.subject);
            && (d.effect == Permit ==>
                  exists r :: Requires(q, s, r) && Node(q.resource, r) in m
                              && Within(s.graph, q.subject, m, m, MAX_USERSET_DEPTH, Node(q.resource, r)))
            && (WalkTruncated !in d.reasons ==>
                  (d.effect == Permit <==> exists r :: Requires(q, s, r) && Node(q.resource, r) in m))
  {
    var m := Members(s.graph, q.subject);
    ExclusionFreeModel(s.graph, q.subject, m, m);
    EvaluateIsExact(q, s, m, m);
    TriedRelations(s, q.resource, RequiredRelations(s.graph.namespaces, q.action, q.resource), q.subject);
    if Evaluate(q, s).effect == Permit {
      var r :| Requires(q, s, r) && Derive(s, Node(q.resource, r), q.subject, 0, {}).grant.Some?;
      GrantWithin(s, q.subject, m, m, Node(q.resource, r), 0, {});
      WithinIsCertain(s.graph, q.subject, m, m, MAX_USERSET_DEPTH, Node(q.resource, r));
    }
  }

  // A decision with a fresh index is the decision without it, unless the plain walk was truncated.
  lemma IndexedDecision(q: Query, s: Snapshot, index: IndexedMemberships)
    requires Setting(s, q.subject, index)
    ensures var plain, indexed := Evaluate(q, s), Evaluate(q, Indexed(s, index));
            && (plain.effect == Permit ==> indexed.effect == Permit)
            && (WalkTruncated !in plain.reasons ==> indexed.effect == plain.effect && WalkTruncated !in indexed.reasons)
  {
    var required := RequiredRelations(s.graph.namespaces, q.action, q.resource);
    TriedRelations(s, q.resource, required, q.subject);
    TriedRelations(Indexed(s, index), q.resource, required, q.subject);
    var lower, upper := WellFoundedLower(s.graph, q.subject), WellFoundedUpper(s.graph, q.subject);
    WellFoundedModel(s.graph, q.subject);
    forall r: string ensures
      var plain := Derive(s, Node(q.resource, r), q.subject, 0, {});
      var indexed := Derive(Indexed(s, index), Node(q.resource, r), q.subject, 0, {});
      (plain.grant.Some? ==> indexed.grant.Some?) && (Denies(plain) ==> Denies(indexed))
    {
      IndexIsTransparent(s, q.subject, index, lower, upper, Node(q.resource, r));
    }
  }
}
