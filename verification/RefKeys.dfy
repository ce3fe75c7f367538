/** The string forms of references, and when they determine what they stand for. */
module RefKeys {
  import opened Prelude
  import opened Refs
  import opened Texts
  import opened NamespaceConfigs

  function FormatEntityRef(r: EntityRef): string { r.kind + ":" + r.id }

  function NodeKey(n: Node): string { FormatEntityRef(n.entity) + "#" + n.relation }

  function EncodeSubject(s: Subject): string {
    match s
    case Direct(ref) => FormatEntityRef(ref)
    case UsersetOf(ref, relation) => FormatEntityRef(ref) + "#" + relation
  }

  function TupleText(k: TupleKey): string { NodeKey(Node(k.entity, k.relation)) + "@" + EncodeSubject(k.subject) }

  function ParseEntityRef(value: string): Option<EntityRef> {
    var separator := IndexOf(value, ':');
    if separator == |value| || separator == 0 || separator == |value| - 1 then None
    else Some(EntityRef(value[..separator], value[separator + 1..]))
  }

  function ParseSubject(value: string): Option<Subject> {
    var hash := IndexOf(value, '#');
    if hash == |value| then
      match ParseEntityRef(value)
      case Some(ref) => Some(Direct(ref))
      case None => None
    else
      var relation := value[hash + 1..];
      if relation == "" || '#' in relation then None
      else
        match ParseEntityRef(value[..hash])
        case Some(ref) => Some(UsersetOf(ref, relation))
        case None => None
  }

  // ----- What a write accepts -----

  predicate WritableRef(r: EntityRef) {
    IsIdentifier(r.kind) && r.id != "" && ':' !in r.id && '#' !in r.id && '@' !in r.id
  }

  predicate WritableSubject(s: Subject) {
    WritableRef(s.ref) && (s.UsersetOf? ==> IsIdentifier(s.relation))
  }

  predicate WritableTuple(k: TupleKey) {
    WritableRef(k.entity) && IsIdentifier(k.relation) && WritableSubject(k.subject)
  }

  lemma IdentifierHasNoSeparator(s: string)
    requires IsIdentifier(s)
    ensures s != "" && ':' !in s && '#' !in s && '@' !in s
  {
  }

  // ----- Keys of the tuple buckets, the visited set and the index -----

  // Whatever the ids are, node keys tell nodes apart when kinds and relations have no separator.
  lemma NodeKeyIsInjective(m: Node, n: Node)
    requires ':' !in m.entity.kind && ':' !in n.entity.kind && '#' !in m.relation && '#' !in n.relation
    ensures NodeKey(m) == NodeKey(n) <==> m == n
  {
    if NodeKey(m) == NodeKey(n) {
      SplitsAtLast(FormatEntityRef(m.entity), FormatEntityRef(n.entity), m.relation, n.relation, '#');
      SplitsAtFirst(m.entity.kind, n.entity.kind, m.entity.id, n.entity.id, ':');
    }
  }

  // The memo key of one member in one organization.
  lemma MemberKeyIsInjective(org: string, member: EntityRef, org': string, member': EntityRef)
    requires ':' !in org && ':' !in org' && ':' !in member.kind && ':' !in member'.kind
    ensures org + ":" + FormatEntityRef(member) == org' + ":" + FormatEntityRef(member')
       <==> org == org' && member == member'
  {
    if org + ":" + FormatEntityRef(member) == org' + ":" + FormatEntityRef(member') {
      SplitsAtFirst(org, org', FormatEntityRef(member), FormatEntityRef(member'), ':');
      SplitsAtFirst(member.kind, member'.kind, member.id, member'.id, ':');
    }
  }

  // What the decision cache hashes: subject, action and resource between unit separators.
  function DecisionText(subject: EntityRef, namespace: string, verb: string, resource: EntityRef): string {
    FormatEntityRef(subject) + "\U{1F}" + (namespace + "." + verb) + "\U{1F}" + FormatEntityRef(resource)
  }

  // A subject without the separator, or one whose id has no colon, as in every subject a write
  // accepts: its id may hold the separator.
  predicate Delimited(s: EntityRef) { ':' !in s.kind && '\U{1F}' !in FormatEntityRef(s) }

  predicate Colonless(s: EntityRef) { ':' !in s.kind && ':' !in s.id }

  // It tells decisions apart whatever the resource id is.
  lemma DecisionTextIsInjective(s: EntityRef, n: string, v: string, r: EntityRef, s': EntityRef, n': string, v': string,
                                r': EntityRef)
    requires || (Delimited(s) && Delimited(s'))
             || (Colonless(s) && Colonless(s') && '\U{1F}' !in r.kind && '\U{1F}' !in r'.kind)
    requires ':' !in r.kind && ':' !in r'.kind
    requires IsIdentifier(n) && IsIdentifier(v) && IsIdentifier(n') && IsIdentifier(v')
    ensures DecisionText(s, n, v, r) == DecisionText(s', n', v', r') <==> s == s' && n == n' && v == v' && r == r'
  {
    if DecisionText(s, n, v, r) == DecisionText(s', n', v', r') {
      ActionHasNoSeparator(n, v);
      ActionHasNoSeparator(n', v');
      if Delimited(s) && Delimited(s') { DelimitedSubjectSplits(s, n + "." + v, r, s', n' + "." + v', r'); }
      else { ColonlessSubjectSplits(s, n + "." + v, r, s', n' + "." + v', r'); }
      SplitsAtFirst(n, n', v, v', '.');
    }
  }

  lemma ActionHasNoSeparator(n: string, v: string)
    requires IsIdentifier(n) && IsIdentifier(v)
    ensures ':' !in n + "." + v && '\U{1F}' !in n + "." + v && '.' !in n
  {
    assert ':' !in n && '\U{1F}' !in n && ':' !in v && '\U{1F}' !in v;
  }

  // The text with the action in one piece.
  function ActionText(s: EntityRef, action: string, r: EntityRef): string {
    FormatEntityRef(s) + "\U{1F}" + action + "\U{1F}" + FormatEntityRef(r)
  }

  lemma DelimitedSubjectSplits(s: EntityRef, action: string, r: EntityRef, s': EntityRef, action': string,
                               r': EntityRef)
    requires Delimited(s) && Delimited(s') && ':' !in r.kind && ':' !in r'.kind
    requires '\U{1F}' !in action && '\U{1F}' !in action' && ActionText(s, action, r) == ActionText(s', action', r')
    ensures s == s' && action == action' && r == r'
  {
    var rest, rest' := action + "\U{1F}" + FormatEntityRef(r), action' + "\U{1F}" + FormatEntityRef(r');
    assert ActionText(s, action, r) == FormatEntityRef(s) + "\U{1F}" + rest;
    assert ActionText(s', action', r') == FormatEntityRef(s') + "\U{1F}" + rest';
    SplitsAtFirst(FormatEntityRef(s), FormatEntityRef(s'), rest, rest', '\U{1F}');
    SplitsAtFirst(action, action', FormatEntityRef(r), FormatEntityRef(r'), '\U{1F}');
    SplitsAtFirst(s.kind, s'.kind, s.id, s'.id, ':');
    SplitsAtFirst(r.kind, r'.kind, r.id, r'.id, ':');
  }

  // What stands between the first two colons when the subject's id holds none.
  function Middle(s: EntityRef, action: string, r: EntityRef): string {
    s.id + "\U{1F}" + action + "\U{1F}" + r.kind
  }

  lemma ColonsOf(s: EntityRef, action: string, r: EntityRef)
    requires Colonless(s) && ':' !in action && ':' !in r.kind
    ensures ActionText(s, action, r) == s.kind + ":" + (Middle(s, action, r) + ":" + r.id)
    ensures ':' !in Middle(s, action, r)
  {
  }

  // The second colon is the resource's, and the last two separators before it are the text's own.
  lemma ColonlessSubjectSplits(s: EntityRef, action: string, r: EntityRef, s': EntityRef, action': string,
                               r': EntityRef)
    requires Colonless(s) && Colonless(s') && ':' !in r.kind && ':' !in r'.kind && ':' !in action && ':' !in action'
    requires '\U{1F}' !in r.kind && '\U{1F}' !in r'.kind && '\U{1F}' !in action && '\U{1F}' !in action'
    requires ActionText(s, action, r) == ActionText(s', action', r')
    ensures s == s' && action == action' && r == r'
  {
    ColonsOf(s, action, r);
    ColonsOf(s', action', r');
    var left, left' := Middle(s, action, r), Middle(s', action', r');
    SplitsAtFirst(s.kind, s'.kind, left + ":" + r.id, left' + ":" + r'.id, ':');
    SplitsAtFirst(left, left', r.id, r'.id, ':');
    SplitsAtLast(s.id + "\U{1F}" + action, s'.id + "\U{1F}" + action', r.kind, r'.kind, '\U{1F}');
    SplitsAtLast(s.id, s'.id, action, action', '\U{1F}');
  }

  lemma NoColonNoOther(r: EntityRef, other: EntityRef)
    requires ':' !in r.kind && ':' !in r.id && FormatEntityRef(other) == FormatEntityRef(r)
    ensures other == r
  {
    var s := FormatEntityRef(r);
    assert s[|r.kind|] == ':' && s[|other.kind|] == ':';
    assert forall i | 0 <= i < |other.kind| :: s[i] == other.kind[i];
    assert forall i | 0 <= i < |r.kind| :: s[i] == r.kind[i];
    assert forall i | |r.kind| < i < |s| :: s[i] == r.id[i - |r.kind| - 1];
    SplitsAtFirst(other.kind, r.kind, other.id, r.id, ':');
  }

  lemma SplitAt(s: string, i: nat)
    requires i < |s|
    ensures s == s[..i] + [s[i]] + s[i + 1..]
  {
  }

  lemma SplitAtIndex(s: string, c: char)
    requires c in s
    ensures var i := IndexOf(s, c); i < |s| && s == s[..i] + [c] + s[i + 1..]
  {
    var i := IndexOf(s, c);
    var j :| 0 <= j < |s| && s[j] == c;
    assert i <= j;
    SplitAt(s, i);
  }

  // The reference that reads the other colon as the separator.
  function Twin(r: EntityRef): EntityRef
    requires ':' in r.kind || ':' in r.id
  {
    if ':' in r.kind then
      SplitAtIndex(r.kind, ':');
      var i := IndexOf(r.kind, ':');
      EntityRef(r.kind[..i], r.kind[i + 1..] + ":" + r.id)
    else
      SplitAtIndex(r.id, ':');
      var i := IndexOf(r.id, ':');
      EntityRef(r.kind + ":" + r.id[..i], r.id[i + 1..])
  }

  lemma Regroup(a: string, b: string, c: string)
    ensures a + ":" + (b + ":" + c) == (a + ":" + b) + ":" + c
  {
  }

  lemma TwinHasSameText(r: EntityRef)
    requires ':' in r.kind || ':' in r.id
    ensures FormatEntityRef(Twin(r)) == FormatEntityRef(r) && Twin(r) != r
  {
    if ':' in r.kind {
      SplitAtIndex(r.kind, ':');
      var i := IndexOf(r.kind, ':');
      Regroup(r.kind[..i], r.kind[i + 1..], r.id);
    } else {
      SplitAtIndex(r.id, ':');
      var i := IndexOf(r.id, ':');
      Regroup(r.kind, r.id[..i], r.id[i + 1..]);
      assert |Twin(r).kind| > |r.kind|;
    }
  }

  // A reference shares its text with no other exactly when neither of its parts holds a colon.
  lemma TextIsUniqueWithoutColon(r: EntityRef)
    ensures (forall other :: FormatEntityRef(other) == FormatEntityRef(r) ==> other == r)
       <==> ':' !in r.kind && ':' !in r.id
  {
    if ':' in r.kind || ':' in r.id {
      TwinHasSameText(r);
    } else {
      forall other | FormatEntityRef(other) == FormatEntityRef(r) ensures other == r { NoColonNoOther(r, other); }
    }
  }

  // ----- Round trips -----

  lemma ParsedRefFormats(value: string)
    ensures forall r | ParseEntityRef(value) == Some(r) :: FormatEntityRef(r) == value
  {
  }

  lemma RefRoundTrip(r: EntityRef)
    ensures ParseEntityRef(FormatEntityRef(r)) == Some(r) <==> r.kind != "" && ':' !in r.kind && r.id != ""
  {
    var s := FormatEntityRef(r);
    if ':' !in r.kind {
      IndexOfSeparator(r.kind, r.id, ':');
      assert s[..|r.kind|] == r.kind && s[|r.kind| + 1..] == r.id;
    }
  }

  lemma ParsedSubjectEncodes(value: string)
    ensures forall s | ParseSubject(value) == Some(s) :: EncodeSubject(s) == value
  {
    var hash := IndexOf(value, '#');
    ParsedRefFormats(value);
    ParsedRefFormats(value[..hash]);
    if hash < |value| { assert value == value[..hash] + "#" + value[hash + 1..]; }
  }

  lemma SubjectRoundTrip(s: Subject)
    ensures ParseSubject(EncodeSubject(s)) == Some(s)
       <==> && s.ref.kind != "" && ':' !in s.ref.kind && s.ref.id != ""
            && '#' !in s.ref.kind && '#' !in s.ref.id
            && (s.UsersetOf? ==> s.relation != "" && '#' !in s.relation)
  {
    var value, text := EncodeSubject(s), FormatEntityRef(s.ref);
    RefRoundTrip(s.ref);
    assert '#' in text <==> '#' in s.ref.kind || '#' in s.ref.id by {
      assert text == s.ref.kind + [':'] + s.ref.id;
    }
    if s.Direct? {
      assert IndexOf(value, '#') == |value| <==> '#' !in value by { assert value[..|value|] == value; }
    } else if '#' !in text {
      IndexOfSeparator(text, s.relation, '#');
      assert value[..|text|] == text && value[|text| + 1..] == s.relation;
    } else {
      ParsedSubjectEncodes(value);
      var hash := IndexOf(value, '#');
      var i :| 0 <= i < |text| && text[i] == '#';
      assert value[i] == '#';
      assert hash <= i;
      assert value[hash + 1..][|text| - hash - 1] == value[|text|] == '#';
    }
  }

  lemma WritableSubjectRoundTrip(s: Subject)
    requires WritableSubject(s)
    ensures ParseSubject(EncodeSubject(s)) == Some(s)
  {
    IdentifierHasNoSeparator(s.ref.kind);
    if s.UsersetOf? { IdentifierHasNoSeparator(s.relation); }
    SubjectRoundTrip(s);
  }

  // The path entries of grants, and the stored rows, tell writable tuples apart.
  lemma TupleTextIsInjective(k: TupleKey, k': TupleKey)
    requires WritableTuple(k) && WritableTuple(k')
    ensures TupleText(k) == TupleText(k') <==> k == k'
  {
    if TupleText(k) == TupleText(k') {
      var n, n' := Node(k.entity, k.relation), Node(k'.entity, k'.relation);
      IdentifierHasNoSeparator(k.entity.kind);
      IdentifierHasNoSeparator(k'.entity.kind);
      IdentifierHasNoSeparator(k.relation);
      IdentifierHasNoSeparator(k'.relation);
      SplitsAtFirst(NodeKey(n), NodeKey(n'), EncodeSubject(k.subject), EncodeSubject(k'.subject), '@');
      NodeKeyIsInjective(n, n');
      WritableSubjectRoundTrip(k.subject);
      WritableSubjectRoundTrip(k'.subject);
    }
  }
}
