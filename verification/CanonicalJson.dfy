/** Canonical JSON text: equal exactly for values that are equal up to key order. */
module CanonicalJson {
  datatype Entry<T> = Entry(key: string, value: T)

  // A number stands for its JSON text. Object fields are in insertion order.
  datatype Json =
    | Null | Bool(b: bool) | Number(text: string) | Str(s: string)
    | Arr(items: seq<Json>) | Obj(fields: seq<Entry<Json>>)

  // ----- Scalars -----

  function HexDigit(d: nat): char
    requires d < 16
  {
    "0123456789abcdef"[d]
  }

  // One character of a JSON string literal.
  function Escape(c: char): (text: string)
    ensures text != "" && text[0] != '"' && '\n' !in text
  {
    if c == '"' then "\\\""
    else if c == '\\' then "\\\\"
    else if c == 8 as char then "\\b"
    else if c == '\t' then "\\t"
    else if c == '\n' then "\\n"
    else if c == 12 as char then "\\f"
    else if c == '\r' then "\\r"
    else if c < ' ' then ['\\', 'u', '0', '0', HexDigit(c as int / 16), HexDigit(c as int % 16)]
    else [c]
  }

  // The encoded characters and a closing quote.
  function Encode(f: char -> string, s: string): string {
    if s == "" then "\"" else f(s[0]) + Encode(f, s[1..])
  }

  lemma {:induction false} EncodeHasNoBreak(f: char -> string, s: string)
    requires forall c | c in s :: '\n' !in f(c)
    ensures '\n' !in Encode(f, s)
  {
    if s != "" {
      assert forall c | c in s[1..] :: c in s;
      EncodeHasNoBreak(f, s[1..]);
    }
  }

  function LiteralRest(s: string): (text: string)
    ensures '\n' !in text
  {
    EncodeHasNoBreak(Escape, s);
    Encode(Escape, s)
  }

  function Quote(s: string): string { "\"" + LiteralRest(s) }

  predicate IsNumberChar(c: char) { '0' <= c <= '9' || c == '+' || c == '-' || c == '.' || c == 'e' || c == 'E' }

  predicate IsNumberText(s: string) {
    s != "" && ('0' <= s[0] <= '9' || s[0] == '-') && forall c | c in s :: IsNumberChar(c)
  }

  // ----- Ordering keys -----

  predicate Less(a: string, b: string) {
    b != "" && (a == "" || a[0] < b[0] || (a[0] == b[0] && Less(a[1..], b[1..])))
  }

  lemma {:induction false} LessIsTotal(a: string, b: string)
    ensures a == b || Less(a, b) || Less(b, a)
    ensures !(Less(a, b) && Less(b, a)) && !(a == b && Less(a, b))
  {
    if a != "" && b != "" {
      LessIsTotal(a[1..], b[1..]);
      if a[0] == b[0] && a[1..] == b[1..] { assert a == [a[0]] + a[1..] && b == [b[0]] + b[1..]; }
    }
  }

  lemma {:induction false} LessIsTransitive(a: string, b: string, c: string)
    requires Less(a, b) && Less(b, c)
    ensures Less(a, c)
  {
    if a != "" && a[0] == b[0] && b[0] == c[0] { LessIsTransitive(a[1..], b[1..], c[1..]); }
  }

  function Insert<T>(e: Entry<T>, es: seq<Entry<T>>): seq<Entry<T>> {
    if es == [] || Less(e.key, es[0].key) then [e] + es else [es[0]] + Insert(e, es[1..])
  }

  function SortByKey<T>(es: seq<Entry<T>>): seq<Entry<T>> {
    if es == [] then [] else Insert(es[0], SortByKey(es[1..]))
  }

  // ----- Canonical text -----

  function Canonicalize(v: Json): string {
    match v
    case Null => "null"
    case Bool(b) => if b then "true" else "false"
    case Number(text) => text
    case Str(s) => Quote(s)
    case Arr(items) => "[" + CanonicalItems(items) + "]"
    case Obj(fields) => "{" + JoinEntries(SortByKey(CanonicalFields(fields))) + "}"
  }

  function CanonicalItems(items: seq<Json>): string {
    if items == [] then ""
    else if |items| == 1 then Canonicalize(items[0])
    else Canonicalize(items[0]) + "," + CanonicalItems(items[1..])
  }

  function CanonicalFields(fields: seq<Entry<Json>>): (texts: seq<Entry<string>>)
    ensures |texts| == |fields|
    ensures forall i | 0 <= i < |fields| :: texts[i] == Entry(fields[i].key, Canonicalize(fields[i].value))
  {
    if fields == [] then []
    else [Entry(fields[0].key, Canonicalize(fields[0].value))] + CanonicalFields(fields[1..])
  }

  function JoinEntries(es: seq<Entry<string>>): string {
    if es == [] then ""
    else if |es| == 1 then Quote(es[0].key) + ":" + es[0].value
    else Quote(es[0].key) + ":" + es[0].value + "," + JoinEntries(es[1..])
  }

  // ----- Equal up to key order -----

  ghost predicate Equivalent(v: Json, w: Json) {
    match (v, w)
    case (Arr(xs), Arr(ys)) => EquivalentItems(xs, ys)
    case (Obj(fs), Obj(gs)) => EquivalentFields(fs, gs)
    case _ => v == w
  }

  ghost predicate EquivalentItems(xs: seq<Json>, ys: seq<Json>) {
    |xs| == |ys| && forall i | 0 <= i < |xs| :: Equivalent(xs[i], ys[i])
  }

  ghost predicate EquivalentFields(fs: seq<Entry<Json>>, gs: seq<Entry<Json>>)
    decreases fs, 1
  {
    Matched(fs, gs) && MatchedBack(fs, gs)
  }

  ghost predicate Matched(fs: seq<Entry<Json>>, gs: seq<Entry<Json>>)
    decreases fs, 0
  {
    forall f | f in fs :: exists g | g in gs :: g.key == f.key && Equivalent(f.value, g.value)
  }

  ghost predicate MatchedBack(fs: seq<Entry<Json>>, gs: seq<Entry<Json>>)
    decreases fs, 0
  {
    forall g | g in gs :: exists f | f in fs :: f.key == g.key && Equivalent(f.value, g.value)
  }

  ghost predicate DistinctKeys<T>(es: seq<Entry<T>>) {
    forall i, j | 0 <= i < j < |es| :: es[i].key != es[j].key
  }

  // What a JSON value always is: numbers have number text, object keys are distinct.
  ghost predicate WellFormed(v: Json) {
    match v
    case Number(text) => IsNumberText(text)
    case Arr(items) => forall x | x in items :: WellFormed(x)
    case Obj(fields) => DistinctKeys(fields) && forall f | f in fields :: WellFormed(f.value)
    case _ => true
  }

  // ----- String literals delimit themselves -----

  lemma HexDigitInjective(a: nat, b: nat)
    requires a < 16 && b < 16 && HexDigit(a) == HexDigit(b)
    ensures a == b
  {
    var s := "0123456789abcdef";
    assert s[a] == s[b];
  }

  lemma EscapePrefixFree(c: char, d: char, x: string, y: string)
    requires Escape(c) + x == Escape(d) + y
    ensures c == d && x == y
  {
    var s, t := Escape(c) + x, Escape(d) + y;
    assert s[0] == Escape(c)[0] && t[0] == Escape(d)[0];
    if |Escape(c)| > 1 && |Escape(d)| > 1 {
      assert s[1] == Escape(c)[1] && t[1] == Escape(d)[1];
      if Escape(c)[1] == 'u' && Escape(d)[1] == 'u' {
        assert s[4] == HexDigit(c as int / 16) && t[4] == HexDigit(d as int / 16);
        assert s[5] == HexDigit(c as int % 16) && t[5] == HexDigit(d as int % 16);
        HexDigitInjective(c as int / 16, d as int / 16);
        HexDigitInjective(c as int % 16, d as int % 16);
      }
    }
    assert c == d;
    assert x == s[|Escape(c)|..] && y == t[|Escape(d)|..];
  }

  // No code is a prefix of another, and none starts like the closing quote.
  ghost predicate PrefixFree(f: char -> string) {
    && (forall c: char :: f(c) != "" && f(c)[0] != '"')
    && forall c: char, d: char, x: string, y: string | f(c) + x == f(d) + y :: c == d && x == y
  }

  lemma EscapeIsPrefixFree()
    ensures PrefixFree(Escape)
  {
    forall c: char, d: char, x: string, y: string | Escape(c) + x == Escape(d) + y ensures c == d && x == y {
      EscapePrefixFree(c, d, x, y);
    }
  }

  lemma {:induction false} EncodedTextDelimits(f: char -> string, s: string, t: string, x: string, y: string)
    requires PrefixFree(f) && Encode(f, s) + x == Encode(f, t) + y
    ensures s == t && x == y
  {
    var u, v := Encode(f, s) + x, Encode(f, t) + y;
    assert u[0] == (if s == "" then '"' else f(s[0])[0]);
    assert v[0] == (if t == "" then '"' else f(t[0])[0]);
    if s == "" {
      assert x == u[1..] && y == v[1..];
    } else {
      assert u == f(s[0]) + (Encode(f, s[1..]) + x);
      assert v == f(t[0]) + (Encode(f, t[1..]) + y);
      EncodedTextDelimits(f, s[1..], t[1..], x, y);
      assert s == [s[0]] + s[1..] && t == [t[0]] + t[1..];
    }
  }

  lemma QuoteDelimits(s: string, t: string, x: string, y: string)
    requires Quote(s) + x == Quote(t) + y
    ensures s == t && x == y
  {
    assert (Quote(s) + x)[1..] == LiteralRest(s) + x && (Quote(t) + y)[1..] == LiteralRest(t) + y;
    EscapeIsPrefixFree();
    EncodedTextDelimits(Escape, s, t, x, y);
  }

  // ----- Number text ends where the delimiter starts -----

  // What follows a value inside canonical text.
  predicate Delimiter(x: string) { x == "" || x[0] == ',' || x[0] == ']' || x[0] == '}' }

  lemma {:induction false} NumberDelimits(s: string, t: string, x: string, y: string)
    requires (forall c | c in s :: IsNumberChar(c)) && (forall c | c in t :: IsNumberChar(c))
    requires Delimiter(x) && Delimiter(y) && s + x == t + y
    ensures s == t && x == y
  {
    assert s + x == (if s == "" then x else [s[0]] + (s[1..] + x));
    assert t + y == (if t == "" then y else [t[0]] + (t[1..] + y));
    assert (s != "" ==> s[0] in s) && (t != "" ==> t[0] in t);
    if s != "" && t != "" {
      assert (s + x)[1..] == s[1..] + x && (t + y)[1..] == t[1..] + y;
      NumberDelimits(s[1..], t[1..], x, y);
      assert s == [s[0]] + s[1..] && t == [t[0]] + t[1..];
    }
  }

  // ----- Sorting keeps the entries and orders their keys -----

  ghost predicate Ascending<T>(es: seq<Entry<T>>) {
    forall i, j | 0 <= i < j < |es| :: Less(es[i].key, es[j].key)
  }

  ghost predicate SameElements<T>(es: seq<Entry<T>>, fs: seq<Entry<T>>) {
    (forall x | x in es :: x in fs) && (forall x | x in fs :: x in es)
  }

  lemma RestOf<T>(es: seq<Entry<T>>)
    requires es != []
    ensures forall x :: x in es <==> x == es[0] || x in es[1..]
    ensures forall x | x in es[1..] :: exists j :: 0 < j < |es| && es[j] == x
  {
    forall x | x in es[1..] ensures exists j :: 0 < j < |es| && es[j] == x {
      var j :| 0 <= j < |es[1..]| && es[1..][j] == x;
      assert es[j + 1] == x;
    }
  }

  lemma HeadIsSmallest<T>(es: seq<Entry<T>>)
    requires es != [] && Ascending(es)
    ensures es[0] !in es[1..]
    ensures forall x | x in es[1..] :: Less(es[0].key, x.key)
    ensures forall x | x in es :: x == es[0] || Less(es[0].key, x.key)
  {
    RestOf(es);
    LessIsTotal(es[0].key, es[0].key);
  }

  lemma AscendingFrom<T>(e: Entry<T>, es: seq<Entry<T>>)
    requires Ascending(es) && forall x | x in es :: Less(e.key, x.key)
    ensures Ascending([e] + es)
  {
  }

  lemma {:induction false} InsertKeeps<T>(e: Entry<T>, es: seq<Entry<T>>)
    requires Ascending(es) && forall x | x in es :: x.key != e.key
    ensures Ascending(Insert(e, es)) && SameElements(Insert(e, es), [e] + es)
  {
    if es != [] {
      RestOf(es);
      HeadIsSmallest(es);
      assert es[0] in es;
      LessIsTotal(e.key, es[0].key);
      if Less(e.key, es[0].key) {
        forall x | x in es ensures Less(e.key, x.key) {
          if x != es[0] { LessIsTransitive(e.key, es[0].key, x.key); }
        }
        AscendingFrom(e, es);
      } else {
        InsertKeeps(e, es[1..]);
        AscendingFrom(es[0], Insert(e, es[1..]));
      }
    }
  }

  lemma {:induction false} SortKeeps<T>(es: seq<Entry<T>>)
    requires DistinctKeys(es)
    ensures Ascending(SortByKey(es)) && SameElements(SortByKey(es), es)
  {
    if es != [] {
      RestOf(es);
      SortKeeps(es[1..]);
      var sorted := SortByKey(es[1..]);
      forall x | x in sorted ensures x.key != es[0].key { assert x in es[1..]; }
      InsertKeeps(es[0], sorted);
    }
  }

  // Ascending lists of the same entries are the same list.
  lemma {:induction false} AscendingIsUnique<T>(es: seq<Entry<T>>, fs: seq<Entry<T>>)
    requires Ascending(es) && Ascending(fs) && SameElements(es, fs)
    ensures es == fs
  {
    assert (es != [] ==> es[0] in es) && (fs != [] ==> fs[0] in fs);
    if es != [] {
      RestOf(es);
      RestOf(fs);
      HeadIsSmallest(es);
      HeadIsSmallest(fs);
      LessIsTotal(es[0].key, fs[0].key);
      AscendingIsUnique(es[1..], fs[1..]);
      assert es == [es[0]] + es[1..] && fs == [fs[0]] + fs[1..];
    }
  }

  lemma CanonicalFieldsKeepKeys(fields: seq<Entry<Json>>)
    requires DistinctKeys(fields)
    ensures DistinctKeys(CanonicalFields(fields))
    ensures forall e :: e in CanonicalFields(fields) <==> EntryOf(e, fields)
  {
    forall e | e in CanonicalFields(fields) ensures EntryOf(e, fields) {
      var i :| 0 <= i < |fields| && CanonicalFields(fields)[i] == e;
      assert fields[i] in fields;
    }
    forall f | f in fields ensures Entry(f.key, Canonicalize(f.value)) in CanonicalFields(fields) {
      var i :| 0 <= i < |fields| && fields[i] == f;
      assert CanonicalFields(fields)[i] == Entry(f.key, Canonicalize(f.value));
    }
  }

  // ----- Equivalent values have equal text -----

  lemma {:induction false} EquivalentHaveSameText(v: Json, w: Json)
    requires WellFormed(v) && WellFormed(w) && Equivalent(v, w)
    ensures Canonicalize(v) == Canonicalize(w)
  {
    if v.Arr? {
      EquivalentItemsHaveSameText(v.items, w.items);
    } else if v.Obj? {
      EquivalentFieldsHaveSameText(v.fields, w.fields);
    }
  }

  lemma {:induction false} EquivalentItemsHaveSameText(xs: seq<Json>, ys: seq<Json>)
    requires (forall x | x in xs :: WellFormed(x)) && (forall y | y in ys :: WellFormed(y)) && EquivalentItems(xs, ys)
    ensures CanonicalItems(xs) == CanonicalItems(ys)
  {
    if xs != [] {
      EquivalentHaveSameText(xs[0], ys[0]);
      EquivalentItemsHaveSameText(xs[1..], ys[1..]);
    }
  }

  // The entries of an object, in canonical order.
  function Entries(fields: seq<Entry<Json>>): seq<Entry<string>> { SortByKey(CanonicalFields(fields)) }

  // `e` is the canonical entry of a field of `fields`.
  ghost predicate EntryOf(e: Entry<string>, fields: seq<Entry<Json>>) {
    exists f | f in fields :: e == Entry(f.key, Canonicalize(f.value))
  }

  lemma EntriesOfFields(fields: seq<Entry<Json>>)
    requires DistinctKeys(fields)
    ensures Ascending(Entries(fields))
    ensures forall e :: e in Entries(fields) <==> EntryOf(e, fields)
  {
    CanonicalFieldsKeepKeys(fields);
    SortKeeps(CanonicalFields(fields));
  }

  lemma {:induction false} EquivalentFieldsHaveSameText(fs: seq<Entry<Json>>, gs: seq<Entry<Json>>)
    requires forall f | f in fs :: WellFormed(f.value)
    requires forall g | g in gs :: WellFormed(g.value)
    requires DistinctKeys(fs) && DistinctKeys(gs) && EquivalentFields(fs, gs)
    ensures Entries(fs) == Entries(gs)
    decreases fs, 1
  {
    EntriesOfFields(fs);
    EntriesOfFields(gs);
    EntriesMatched(fs, gs);
    EntriesMatchedBack(fs, gs);
    AscendingIsUnique(Entries(fs), Entries(gs));
  }

  lemma {:induction false} EntriesMatched(fs: seq<Entry<Json>>, gs: seq<Entry<Json>>)
    requires forall f | f in fs :: WellFormed(f.value)
    requires forall g | g in gs :: WellFormed(g.value)
    requires Matched(fs, gs)
    ensures forall e | EntryOf(e, fs) :: EntryOf(e, gs)
    decreases fs, 0
  {
    forall f | f in fs ensures EntryOf(Entry(f.key, Canonicalize(f.value)), gs) {
      var g :| g in gs && g.key == f.key && Equivalent(f.value, g.value);
      EquivalentHaveSameText(f.value, g.value);
    }
  }

  lemma {:induction false} EntriesMatchedBack(fs: seq<Entry<Json>>, gs: seq<Entry<Json>>)
    requires forall f | f in fs :: WellFormed(f.value)
    requires forall g | g in gs :: WellFormed(g.value)
    requires MatchedBack(fs, gs)
    ensures forall e | EntryOf(e, gs) :: EntryOf(e, fs)
    decreases fs, 0
  {
    forall g | g in gs ensures EntryOf(Entry(g.key, Canonicalize(g.value)), fs) {
      var f :| f in fs && f.key == g.key && Equivalent(f.value, g.value);
      EquivalentHaveSameText(f.value, g.value);
    }
  }

  // ----- Equal text comes only from equivalent values -----

  // The first character tells the kind of value.
  function Kind(c: char): nat {
    if c == 'n' then 0 else if c == 't' || c == 'f' then 1 else if c == '"' then 3
    else if c == '[' then 4 else if c == '{' then 5 else 2
  }

  function KindOf(v: Json): nat {
    match v case Null => 0 case Bool(_) => 1 case Number(_) => 2 case Str(_) => 3 case Arr(_) => 4 case Obj(_) => 5
  }

  lemma FirstCharacter(v: Json)
    requires WellFormed(v)
    ensures Canonicalize(v) != "" && Kind(Canonicalize(v)[0]) == KindOf(v) && !Delimiter(Canonicalize(v))
  {
  }

  predicate IsScalar(v: Json) { v.Null? || v.Bool? || v.Number? || v.Str? }

  lemma ScalarDelimits(v: Json, w: Json, x: string, y: string)
    requires WellFormed(v) && WellFormed(w) && IsScalar(v) && KindOf(v) == KindOf(w) && Delimiter(x) && Delimiter(y)
    requires Canonicalize(v) + x == Canonicalize(w) + y
    ensures x == y && v == w
  {
    var s, t := Canonicalize(v) + x, Canonicalize(w) + y;
    if v.Number? {
      NumberDelimits(v.text, w.text, x, y);
    } else if v.Str? {
      QuoteDelimits(v.s, w.s, x, y);
    } else {
      assert s[0] == Canonicalize(v)[0] && t[0] == Canonicalize(w)[0];
      assert x == s[|Canonicalize(v)|..] && y == t[|Canonicalize(w)|..];
    }
  }

  lemma {:induction false} TextDelimits(v: Json, w: Json, x: string, y: string)
    requires WellFormed(v) && WellFormed(w) && Delimiter(x) && Delimiter(y)
    requires Canonicalize(v) + x == Canonicalize(w) + y
    ensures Canonicalize(v) == Canonicalize(w) && x == y && Equivalent(v, w)
    decreases v, 0
  {
    SameKind(v, w, x, y);
    if v.Arr? {
      ArrText(v.items, x);
      ArrText(w.items, y);
      ItemsDelimit(v.items, w.items, x, y);
    } else if v.Obj? {
      ObjText(v.fields, x);
      ObjText(w.fields, y);
      FieldsDelimit(v.fields, w.fields, x, y);
    } else {
      ScalarDelimits(v, w, x, y);
    }
  }

  lemma SameKind(v: Json, w: Json, x: string, y: string)
    requires WellFormed(v) && WellFormed(w) && Canonicalize(v) + x == Canonicalize(w) + y
    ensures KindOf(v) == KindOf(w)
  {
    FirstCharacter(v);
    FirstCharacter(w);
    assert (Canonicalize(v) + x)[0] == Canonicalize(v)[0] && (Canonicalize(w) + y)[0] == Canonicalize(w)[0];
  }

  lemma ArrText(items: seq<Json>, x: string)
    ensures (Canonicalize(Arr(items)) + x)[1..] == CanonicalItems(items) + ("]" + x)
  {
  }

  lemma ObjText(fields: seq<Entry<Json>>, x: string)
    ensures (Canonicalize(Obj(fields)) + x)[1..] == JoinEntries(Entries(fields)) + ("}" + x)
  {
  }

  lemma {:induction false} FieldsDelimit(fs: seq<Entry<Json>>, gs: seq<Entry<Json>>, x: string, y: string)
    requires forall f | f in fs :: WellFormed(f.value)
    requires forall g | g in gs :: WellFormed(g.value)
    requires DistinctKeys(fs) && DistinctKeys(gs)
    requires JoinEntries(Entries(fs)) + ("}" + x) == JoinEntries(Entries(gs)) + ("}" + y)
    ensures Entries(fs) == Entries(gs) && x == y && EquivalentFields(fs, gs)
    decreases fs, 2
  {
    EntriesOfFields(fs);
    EntriesOfFields(gs);
    EntriesDelimit(fs, gs, Entries(fs), Entries(gs), x, y);
    FieldsMatch(fs, gs);
  }

  // What is left of a list after its first element.
  function Continued(more: bool, rest: string, close: string): string {
    if more then "," + (rest + close) else close
  }

  lemma SameContinued(more: bool, again: bool, r: string, s: string, x: string, y: string)
    requires x != "" && y != "" && x[0] != ',' && y[0] != ','
    requires Continued(more, r, x) == Continued(again, s, y)
    ensures more == again && (if more then r + x == s + y else x == y)
  {
    assert Continued(more, r, x)[0] == (if more then ',' else x[0]);
    assert Continued(again, s, y)[0] == (if again then ',' else y[0]);
    assert more ==> Continued(more, r, x)[1..] == r + x;
    assert again ==> Continued(again, s, y)[1..] == s + y;
  }

  lemma ItemsText(xs: seq<Json>, close: string)
    requires xs != []
    ensures CanonicalItems(xs) + close == Canonicalize(xs[0]) + Continued(|xs| > 1, CanonicalItems(xs[1..]), close)
  {
    Regroup(Canonicalize(xs[0]), CanonicalItems(xs[1..]), close);
  }

  lemma Regroup(first: string, rest: string, close: string)
    ensures first + "," + rest + close == first + ("," + (rest + close))
  {
  }

  lemma ItemsStart(xs: seq<Json>, close: string)
    requires forall v | v in xs :: WellFormed(v)
    requires close != "" && close[0] == ']'
    ensures CanonicalItems(xs) + close != "" && ((CanonicalItems(xs) + close)[0] == ']' <==> xs == [])
  {
    if xs != [] {
      assert xs[0] in xs;
      FirstCharacter(xs[0]);
      ItemsText(xs, close);
    }
  }

  lemma {:induction false} ItemsDelimit(xs: seq<Json>, ys: seq<Json>, x: string, y: string)
    requires (forall v | v in xs :: WellFormed(v)) && (forall v | v in ys :: WellFormed(v))
    requires CanonicalItems(xs) + ("]" + x) == CanonicalItems(ys) + ("]" + y)
    ensures CanonicalItems(xs) == CanonicalItems(ys) && x == y
    ensures EquivalentItems(xs, ys)
    decreases xs, 1
  {
    ItemsStart(xs, "]" + x);
    ItemsStart(ys, "]" + y);
    if xs == [] {
      assert CanonicalItems(xs) + ("]" + x) == "]" + x && CanonicalItems(ys) + ("]" + y) == "]" + y;
      assert x == ("]" + x)[1..] && y == ("]" + y)[1..];
    } else {
      assert xs[0] in xs && ys[0] in ys;
      ItemsText(xs, "]" + x);
      ItemsText(ys, "]" + y);
      var restX := Continued(|xs| > 1, CanonicalItems(xs[1..]), "]" + x);
      var restY := Continued(|ys| > 1, CanonicalItems(ys[1..]), "]" + y);
      TextDelimits(xs[0], ys[0], restX, restY);
      SameContinued(|xs| > 1, |ys| > 1, CanonicalItems(xs[1..]), CanonicalItems(ys[1..]), "]" + x, "]" + y);
      if |xs| > 1 {
        ItemsDelimit(xs[1..], ys[1..], x, y);
      } else {
        assert x == ("]" + x)[1..] && y == ("]" + y)[1..];
      }
    }
  }

  lemma Reassociate(key: string, value: string, rest: string, close: string)
    ensures key + ":" + value + "," + rest + close == key + (":" + (value + ("," + (rest + close))))
    ensures key + ":" + value + close == key + (":" + (value + close))
  {
  }

  lemma EntriesText(es: seq<Entry<string>>, close: string)
    requires es != []
    ensures JoinEntries(es) + close
         == Quote(es[0].key) + (":" + (es[0].value + Continued(|es| > 1, JoinEntries(es[1..]), close)))
  {
    Reassociate(Quote(es[0].key), es[0].value, JoinEntries(es[1..]), close);
  }

  // `es` and `ds` are canonical entries of `fs` and `gs`.
  lemma {:induction false} EntriesDelimit(fs: seq<Entry<Json>>, gs: seq<Entry<Json>>, es: seq<Entry<string>>,
                                          ds: seq<Entry<string>>, x: string, y: string)
    requires forall f | f in fs :: WellFormed(f.value)
    requires forall g | g in gs :: WellFormed(g.value)
    requires forall e | e in es :: EntryOf(e, fs)
    requires forall d | d in ds :: EntryOf(d, gs)
    requires JoinEntries(es) + ("}" + x) == JoinEntries(ds) + ("}" + y)
    ensures es == ds && x == y
    decreases fs, 1, |es|
  {
    assert (JoinEntries(es) + ("}" + x))[0] == (if es == [] then '}' else '"');
    assert (JoinEntries(ds) + ("}" + y))[0] == (if ds == [] then '}' else '"');
    if es == [] {
      assert JoinEntries(es) + ("}" + x) == "}" + x && JoinEntries(ds) + ("}" + y) == "}" + y;
      assert x == ("}" + x)[1..] && y == ("}" + y)[1..];
    } else {
      EntriesText(es, "}" + x);
      EntriesText(ds, "}" + y);
      var restX := Continued(|es| > 1, JoinEntries(es[1..]), "}" + x);
      var restY := Continued(|ds| > 1, JoinEntries(ds[1..]), "}" + y);
      FirstEntryDelimits(fs, gs, es[0], ds[0], restX, restY);
      SameContinued(|es| > 1, |ds| > 1, JoinEntries(es[1..]), JoinEntries(ds[1..]), "}" + x, "}" + y);
      if |es| > 1 {
        EntriesDelimit(fs, gs, es[1..], ds[1..], x, y);
      } else {
        assert x == ("}" + x)[1..] && y == ("}" + y)[1..];
      }
      assert es == [es[0]] + es[1..] && ds == [ds[0]] + ds[1..];
    }
  }

  lemma {:induction false} FirstEntryDelimits(fs: seq<Entry<Json>>, gs: seq<Entry<Json>>, e: Entry<string>,
                                              d: Entry<string>, restX: string, restY: string)
    requires forall f | f in fs :: WellFormed(f.value)
    requires forall g | g in gs :: WellFormed(g.value)
    requires EntryOf(e, fs) && EntryOf(d, gs) && Delimiter(restX) && Delimiter(restY)
    requires Quote(e.key) + (":" + (e.value + restX)) == Quote(d.key) + (":" + (d.value + restY))
    ensures e == d && restX == restY
    decreases fs, 0
  {
    var f :| f in fs && e == Entry(f.key, Canonicalize(f.value));
    var g :| g in gs && d == Entry(g.key, Canonicalize(g.value));
    QuoteDelimits(e.key, d.key, ":" + (e.value + restX), ":" + (d.value + restY));
    assert (":" + (e.value + restX))[1..] == e.value + restX && (":" + (d.value + restY))[1..] == d.value + restY;
    TextDelimits(f.value, g.value, restX, restY);
  }

  // Fields with the same canonical entries match up to equivalence.
  lemma {:induction false} FieldsMatch(fs: seq<Entry<Json>>, gs: seq<Entry<Json>>)
    requires forall f | f in fs :: WellFormed(f.value)
    requires forall g | g in gs :: WellFormed(g.value)
    requires forall e :: EntryOf(e, fs) <==> EntryOf(e, gs)
    ensures EquivalentFields(fs, gs)
    decreases fs, 0
  {
    forall f | f in fs ensures exists g | g in gs :: g.key == f.key && Equivalent(f.value, g.value) {
      assert EntryOf(Entry(f.key, Canonicalize(f.value)), fs);
      var g :| g in gs && Entry(f.key, Canonicalize(f.value)) == Entry(g.key, Canonicalize(g.value));
      TextDelimits(f.value, g.value, "", "");
    }
    forall g | g in gs ensures exists f | f in fs :: f.key == g.key && Equivalent(f.value, g.value) {
      assert EntryOf(Entry(g.key, Canonicalize(g.value)), gs);
      var f :| f in fs && Entry(g.key, Canonicalize(g.value)) == Entry(f.key, Canonicalize(f.value));
      TextDelimits(f.value, g.value, "", "");
    }
  }

  // ----- Main result -----

  lemma SameTextIsSameValue(v: Json, w: Json)
    requires WellFormed(v) && WellFormed(w)
    ensures Canonicalize(v) == Canonicalize(w) <==> Equivalent(v, w)
  {
    if Canonicalize(v) == Canonicalize(w) { TextDelimits(v, w, "", ""); }
    if Equivalent(v, w) { EquivalentHaveSameText(v, w); }
  }

  // ----- Canonical text is one line -----

  lemma {:induction false} TextHasNoBreak(v: Json)
    requires WellFormed(v)
    ensures '\n' !in Canonicalize(v)
    decreases v, 0
  {
    if v.Arr? {
      ItemsHaveNoBreak(v.items);
    } else if v.Obj? {
      EntriesOfFields(v.fields);
      FieldsHaveNoBreak(v.fields);
      EntriesHaveNoBreak(Entries(v.fields));
    }
  }

  lemma {:induction false} ItemsHaveNoBreak(items: seq<Json>)
    requires forall x | x in items :: WellFormed(x)
    ensures '\n' !in CanonicalItems(items)
    decreases items, 0
  {
    if items != [] {
      TextHasNoBreak(items[0]);
      ItemsHaveNoBreak(items[1..]);
    }
  }

  lemma {:induction false} FieldsHaveNoBreak(fields: seq<Entry<Json>>)
    requires forall f | f in fields :: WellFormed(f.value)
    ensures forall e | EntryOf(e, fields) :: '\n' !in e.value
    decreases fields, 0
  {
    forall f | f in fields ensures '\n' !in Canonicalize(f.value) { TextHasNoBreak(f.value); }
  }

  lemma {:induction false} EntriesHaveNoBreak(es: seq<Entry<string>>)
    requires forall e | e in es :: '\n' !in e.value
    ensures '\n' !in JoinEntries(es)
  {
    if es != [] {
      assert es[0] in es && forall e | e in es[1..] :: e in es;
      EntriesHaveNoBreak(es[1..]);
    }
  }
}
