/**
 Comparing JSON values by their canonical text: objects are copied with sorted keys at
 every depth, and then printed. Two values are proved to print alike exactly when they are
 equal up to the order of keys (RFC 8259, section 4).
 */
module CanonicalJson {
  import opened Wrappers

  /** Numbers are represented by the text JavaScript prints for them. */
  datatype Json =
    | Null
    | Bool(b: bool)
    | Num(text: string)
    | Str(s: string)
    | Arr(items: Items)
    | Obj(fields: Fields)

  datatype Items = Nil | Item(head: Json, tail: Items)

  datatype Fields = Empty | Field(key: string, value: Json, rest: Fields)

  function Lookup(f: Fields, k: string): Option<Json> {
    match f
    case Empty => None
    case Field(key, value, rest) => if key == k then Some(value) else Lookup(rest, k)
  }

  predicate IsNumChar(c: char) {
    '0' <= c <= '9' || c in {'-', '+', '.', 'e', 'E'}
  }

  /** The values of JavaScript's JSON: numbers have a text, and the keys of an object are distinct. */
  predicate WellFormed(j: Json) {
    match j
    case Num(t) => t != "" && forall i | 0 <= i < |t| :: IsNumChar(t[i])
    case Arr(items) => WellFormedItems(items)
    case Obj(fields) => WellFormedFields(fields)
    case _ => true
  }

  predicate WellFormedItems(items: Items) {
    items.Item? ==> WellFormed(items.head) && WellFormedItems(items.tail)
  }

  predicate WellFormedFields(f: Fields) {
    f.Field? ==> Lookup(f.rest, f.key).None? && WellFormed(f.value) && WellFormedFields(f.rest)
  }

  // ------------------------------------------------- equality up to key order

  /** Equal up to the order of keys at every depth. */
  ghost predicate Same(a: Json, b: Json) {
    match a
    case Arr(items) => b.Arr? && SameItems(items, b.items)
    case Obj(fields) =>
      b.Obj? && SameIn(fields, b.fields) && forall k :: Lookup(b.fields, k).Some? ==> Lookup(fields, k).Some?
    case _ => a == b
  }

  ghost predicate SameItems(a: Items, b: Items) {
    match a
    case Nil => b.Nil?
    case Item(head, tail) => b.Item? && Same(head, b.head) && SameItems(tail, b.tail)
  }

  /** Every field of f is in g, with the same value. */
  ghost predicate SameIn(f: Fields, g: Fields) {
    match f
    case Empty => true
    case Field(key, value, rest) => Lookup(g, key).Some? && Same(value, Lookup(g, key).value) && SameIn(rest, g)
  }

  /** Both missing, or both there and the same. */
  ghost predicate SameValue(x: Option<Json>, y: Option<Json>) {
    if x.Some? then y.Some? && Same(x.value, y.value) else y.None?
  }

  /** Objects are the same exactly when they have the same keys, with the same values. */
  lemma SameFields(f: Fields, g: Fields)
    requires WellFormedFields(f) && Same(Obj(f), Obj(g))
    ensures forall k: string :: SameValue(Lookup(f, k), Lookup(g, k))
  {
    SameInByKeys(f, g);
    forall k: string ensures SameValue(Lookup(f, k), Lookup(g, k)) {
      if Lookup(f, k).Some? { assert SameValue(Lookup(f, k), Lookup(g, k)); }
    }
  }

  lemma SameFromFields(f: Fields, g: Fields)
    requires WellFormedFields(f) && forall k: string :: SameValue(Lookup(f, k), Lookup(g, k))
    ensures Same(Obj(f), Obj(g))
  {
    SameInByKeys(f, g);
    forall k: string ensures Lookup(g, k).Some? ==> Lookup(f, k).Some? {
      assert SameValue(Lookup(f, k), Lookup(g, k));
    }
  }

  lemma {:induction false} SameInByKeys(f: Fields, g: Fields)
    requires WellFormedFields(f)
    ensures SameIn(f, g) <==> forall k | Lookup(f, k).Some? :: SameValue(Lookup(f, k), Lookup(g, k))
  {
    if f.Field? {
      SameInByKeys(f.rest, g);
      assert Lookup(f, f.key) == Some(f.value);
      forall k | Lookup(f.rest, k).Some? ensures Lookup(f, k) == Lookup(f.rest, k) {
      }
    }
  }

  function Nth(items: Items, i: nat): Option<Json> {
    if items.Nil? then None else if i == 0 then Some(items.head) else Nth(items.tail, i - 1)
  }

  /** Arrays are the same exactly when they have the same values in the same places. */
  lemma {:induction false} SameNth(a: Items, b: Items, i: nat)
    requires Same(Arr(a), Arr(b))
    ensures SameValue(Nth(a, i), Nth(b, i))
  {
    if i > 0 && a.Item? { SameNth(a.tail, b.tail, i - 1); }
  }

  lemma {:induction false} SameFromNth(a: Items, b: Items)
    requires forall i: nat :: SameValue(Nth(a, i), Nth(b, i))
    ensures Same(Arr(a), Arr(b))
  {
    assert SameValue(Nth(a, 0), Nth(b, 0));
    if a.Item? {
      forall i: nat ensures SameValue(Nth(a.tail, i), Nth(b.tail, i)) {
        assert SameValue(Nth(a, i + 1), Nth(b, i + 1));
      }
      SameFromNth(a.tail, b.tail);
    }
  }

  // --------------------------------------------------------------- key order

  predicate LexLess(a: string, b: string) {
    if a == "" then b != ""
    else if b == "" then false
    else a[0] < b[0] || (a[0] == b[0] && LexLess(a[1..], b[1..]))
  }

  /** An array index, which JavaScript lists before the other keys: decimal digits, no leading zero, below 2^32 - 1. */
  predicate IsIndex(k: string) {
    && 0 < |k| <= 10
    && (forall i | 0 <= i < |k| :: '0' <= k[i] <= '9')
    && (k[0] == '0' ==> k == "0")
    && (|k| == 10 ==> LexLess(k, "4294967295"))
  }

  /** The order in which an object lists its keys if they were inserted in sorted order: indices first, by number. */
  predicate KeyLess(a: string, b: string) {
    if IsIndex(a) && IsIndex(b) then |a| < |b| || (|a| == |b| && LexLess(a, b))
    else if IsIndex(a) || IsIndex(b) then IsIndex(a)
    else LexLess(a, b)
  }

  lemma {:induction false} LexTotal(a: string, b: string)
    ensures a == b || LexLess(a, b) || LexLess(b, a)
    ensures !(LexLess(a, b) && LexLess(b, a)) && !LexLess(a, a)
  {
    if a != "" {
      LexTotal(a[1..], a[1..]);
      if b != "" {
        LexTotal(a[1..], b[1..]);
        if a[1..] == b[1..] && a[0] == b[0] {
          assert a == [a[0]] + a[1..] && b == [b[0]] + b[1..];
        }
      }
    }
  }

  lemma {:induction false} LexTrans(a: string, b: string, c: string)
    requires LexLess(a, b) && LexLess(b, c)
    ensures LexLess(a, c)
  {
    if a != "" && a[0] == b[0] && b[0] == c[0] {
      LexTrans(a[1..], b[1..], c[1..]);
    }
  }

  lemma KeyTotal(a: string, b: string)
    ensures a == b || KeyLess(a, b) || KeyLess(b, a)
    ensures !(KeyLess(a, b) && KeyLess(b, a)) && !KeyLess(a, a)
  {
    LexTotal(a, b);
    LexTotal(a, a);
  }

  lemma KeyTrans(a: string, b: string, c: string)
    requires KeyLess(a, b) && KeyLess(b, c)
    ensures KeyLess(a, c)
  {
    if LexLess(a, b) && LexLess(b, c) { LexTrans(a, b, c); }
  }

  // -------------------------------------------------------------- normalising

  function Insert(k: string, v: Json, f: Fields): Fields {
    match f
    case Empty => Field(k, v, Empty)
    case Field(key, value, rest) => if KeyLess(k, key) then Field(k, v, f) else Field(key, value, Insert(k, v, rest))
  }

  function Normal(j: Json): Json {
    match j
    case Arr(items) => Arr(NormalItems(items))
    case Obj(fields) => Obj(NormalFields(fields))
    case _ => j
  }

  function NormalItems(items: Items): Items {
    match items
    case Nil => Nil
    case Item(head, tail) => Item(Normal(head), NormalItems(tail))
  }

  function NormalFields(f: Fields): Fields {
    match f
    case Empty => Empty
    case Field(key, value, rest) => Insert(key, Normal(value), NormalFields(rest))
  }

  ghost predicate AllAbove(k: string, f: Fields) {
    f.Field? ==> KeyLess(k, f.key) && AllAbove(k, f.rest)
  }

  ghost predicate Sorted(f: Fields) {
    f.Field? ==> AllAbove(f.key, f.rest) && Sorted(f.rest)
  }

  lemma {:induction false} AboveLookup(k: string, f: Fields, x: string)
    requires AllAbove(k, f) && Lookup(f, x).Some?
    ensures KeyLess(k, x)
  {
    if f.key != x {
      AboveLookup(k, f.rest, x);
    }
  }

  lemma {:induction false} AboveTrans(j: string, k: string, f: Fields)
    requires KeyLess(j, k) && AllAbove(k, f)
    ensures AllAbove(j, f)
  {
    if f.Field? {
      KeyTrans(j, k, f.key);
      AboveTrans(j, k, f.rest);
    }
  }

  lemma {:induction false} InsertAbove(j: string, k: string, v: Json, f: Fields)
    requires KeyLess(j, k) && AllAbove(j, f)
    ensures AllAbove(j, Insert(k, v, f))
  {
    if f.Field? && !KeyLess(k, f.key) {
      InsertAbove(j, k, v, f.rest);
    }
  }

  lemma {:induction false} InsertLookup(k: string, v: Json, f: Fields, x: string)
    requires Lookup(f, k).None?
    ensures Lookup(Insert(k, v, f), x) == if x == k then Some(v) else Lookup(f, x)
  {
    if f.Field? && !KeyLess(k, f.key) {
      InsertLookup(k, v, f.rest, x);
    }
  }

  lemma {:induction false} InsertSorted(k: string, v: Json, f: Fields)
    requires Sorted(f) && Lookup(f, k).None?
    ensures Sorted(Insert(k, v, f))
  {
    if f.Field? {
      KeyTotal(k, f.key);
      if KeyLess(k, f.key) {
        AboveTrans(k, f.key, f.rest);
      } else {
        InsertSorted(k, v, f.rest);
        InsertAbove(f.key, k, v, f.rest);
      }
    }
  }

  function Mapped(v: Option<Json>): Option<Json> {
    if v.Some? then Some(Normal(v.value)) else None
  }

  /** Normalising sorts the keys and normalises each value. */
  lemma {:induction false} NormalLookup(f: Fields, x: string)
    requires WellFormedFields(f)
    ensures Sorted(NormalFields(f)) && Lookup(NormalFields(f), x) == Mapped(Lookup(f, x))
  {
    if f.Field? {
      NormalLookup(f.rest, f.key);
      NormalLookup(f.rest, x);
      InsertSorted(f.key, Normal(f.value), NormalFields(f.rest));
      InsertLookup(f.key, Normal(f.value), NormalFields(f.rest), x);
    }
  }

  /** Sorted fields are determined by what they hold. */
  lemma {:induction false} SortedUnique(f: Fields, g: Fields)
    requires Sorted(f) && Sorted(g) && forall k :: Lookup(f, k) == Lookup(g, k)
    ensures f == g
  {
    if f.Empty? {
      assert g.Field? ==> Lookup(f, g.key) == Lookup(g, g.key);
    } else {
      assert Lookup(f, f.key) == Lookup(g, f.key) == Some(f.value);
      assert Lookup(g, g.key) == Lookup(f, g.key) == Some(g.value);
      if f.key != g.key {
        AboveLookup(f.key, f.rest, g.key);
        AboveLookup(g.key, g.rest, f.key);
        KeyTotal(f.key, g.key);
      }
      forall k ensures Lookup(f.rest, k) == Lookup(g.rest, k) {
        assert Lookup(f, k) == Lookup(g, k);
        KeyTotal(f.key, f.key);
        if k == f.key && Lookup(f.rest, k).Some? { AboveLookup(f.key, f.rest, k); }
        if k == f.key && Lookup(g.rest, k).Some? { AboveLookup(g.key, g.rest, k); }
      }
      SortedUnique(f.rest, g.rest);
    }
  }

  /** Two values are equal up to key order exactly when they normalise to the same value. */
  lemma {:induction false} SameIffNormal(a: Json, b: Json)
    requires WellFormed(a) && WellFormed(b)
    ensures Same(a, b) <==> Normal(a) == Normal(b)
  {
    if a.Arr? && b.Arr? {
      SameItemsIff(a.items, b.items);
    } else if a.Obj? && b.Obj? {
      SameInIff(a.fields, b.fields);
      forall k
        ensures Lookup(NormalFields(a.fields), k) == Mapped(Lookup(a.fields, k))
        ensures Lookup(NormalFields(b.fields), k) == Mapped(Lookup(b.fields, k))
      {
        NormalLookup(a.fields, k);
        NormalLookup(b.fields, k);
      }
      NormalLookup(a.fields, "");
      NormalLookup(b.fields, "");
      if Same(a, b) {
        forall k ensures Lookup(NormalFields(a.fields), k) == Lookup(NormalFields(b.fields), k) {
          assert Lookup(b.fields, k).Some? ==> Lookup(a.fields, k).Some?;
          assert Agree(a.fields, b.fields, k);
        }
        SortedUnique(NormalFields(a.fields), NormalFields(b.fields));
      }
      if Normal(a) == Normal(b) {
        forall k ensures Agree(a.fields, b.fields, k) && (Lookup(b.fields, k).Some? ==> Lookup(a.fields, k).Some?) {
          assert Lookup(NormalFields(a.fields), k) == Mapped(Lookup(a.fields, k));
        }
      }
    }
  }

  lemma {:induction false} SameItemsIff(a: Items, b: Items)
    requires WellFormedItems(a) && WellFormedItems(b)
    ensures SameItems(a, b) <==> NormalItems(a) == NormalItems(b)
  {
    if a.Item? && b.Item? {
      SameIffNormal(a.head, b.head);
      SameItemsIff(a.tail, b.tail);
    }
  }

  /** If f has k then g has it with the same normal form. */
  ghost predicate Agree(f: Fields, g: Fields, k: string) {
    Lookup(f, k).Some? ==> Mapped(Lookup(f, k)) == Mapped(Lookup(g, k))
  }

  /** f lies in g exactly when every value of f has a counterpart in g with the same normal form. */
  lemma {:induction false} SameInIff(f: Fields, g: Fields)
    requires WellFormedFields(f) && WellFormedFields(g)
    ensures SameIn(f, g) <==> forall k :: Agree(f, g, k)
  {
    if f.Field? {
      var v := Lookup(g, f.key);
      if v.Some? {
        LookupWellFormed(g, f.key);
        SameIffNormal(f.value, v.value);
      }
      SameInIff(f.rest, g);
      if SameIn(f, g) {
        forall k ensures Agree(f, g, k) {
          assert Agree(f.rest, g, k);
        }
      }
      if forall k :: Agree(f, g, k) {
        assert Agree(f, g, f.key);
        forall k ensures Agree(f.rest, g, k) {
          assert Agree(f, g, k);
        }
      }
    }
  }

  lemma {:induction false} LookupWellFormed(f: Fields, k: string)
    requires WellFormedFields(f) && Lookup(f, k).Some?
    ensures WellFormed(Lookup(f, k).value)
  {
    if f.key != k {
      LookupWellFormed(f.rest, k);
    }
  }

  // ----------------------------------------------------------------- printing

  function Hex(n: nat): char
    requires n < 16
  {
    "0123456789abcdef"[n]
  }

  /** How JSON.stringify writes one character of a string. */
  function EscapeChar(c: char): (e: string)
    ensures e != "" && e[0] != '"'
  {
    if c == '"' then "\\\""
    else if c == '\\' then "\\\\"
    else if c as int == 8 then "\\b"
    else if c as int == 12 then "\\f"
    else if c == '\n' then "\\n"
    else if c == '\r' then "\\r"
    else if c == '\t' then "\\t"
    else if c as int < 32 then "\\u00" + [Hex(c as int / 16), Hex(c as int % 16)]
    else [c]
  }

  function Escape(s: string): string {
    if s == "" then "" else EscapeChar(s[0]) + Escape(s[1..])
  }

  function Quote(s: string): string {
    "\"" + (Escape(s) + "\"")
  }

  function Print(j: Json): string
    decreases j, 0
  {
    match j
    case Null => "null"
    case Bool(b) => if b then "true" else "false"
    case Num(t) => t
    case Str(s) => Quote(s)
    case Arr(items) => "[" + (if items.Nil? then "]" else Print(items.head) + PrintMore(items.tail))
    case Obj(fields) =>
      "{" + (if fields.Empty? then "}" else PrintField(fields.key, fields.value) + PrintRest(fields.rest))
  }

  function PrintMore(items: Items): string
    decreases items, 0
  {
    match items
    case Nil => "]"
    case Item(head, tail) => "," + (Print(head) + PrintMore(tail))
  }

  function PrintField(key: string, value: Json): string
    decreases value, 1
  {
    Quote(key) + (":" + Print(value))
  }

  function PrintRest(f: Fields): string
    decreases f, 0
  {
    match f
    case Empty => "}"
    case Field(key, value, rest) => "," + (PrintField(key, value) + PrintRest(rest))
  }

  // ------------------------------------------------ printing loses nothing

  lemma Cut(a: string, s: string, b: string, t: string, n: nat)
    requires a + s == b + t && n <= |a| && n <= |b|
    ensures a[..n] == b[..n] && a[n..] + s == b[n..] + t
  {
    var x := a + s;
    assert x[..n] == a[..n] && x[n..] == a[n..] + s;
    assert x[..n] == b[..n] && x[n..] == b[n..] + t;
  }

  lemma Heads(a: string, s: string, b: string, t: string, i: nat)
    requires a + s == b + t && i < |a| && i < |b|
    ensures a[i] == b[i]
  {
    assert (a + s)[i] == a[i] && (b + t)[i] == b[i];
  }

  /** The first characters tell how long an escape is. */
  lemma EscapeShape(c: char)
    ensures var e := EscapeChar(c);
            && |e| in {1, 2, 6}
            && (e[0] == '\\' <==> |e| >= 2)
            && (|e| >= 2 ==> (e[1] == 'u' <==> |e| == 6))
  {
  }

  lemma SameEscape(c: char, d: char)
    requires EscapeChar(c) == EscapeChar(d)
    ensures c == d
  {
    var e, f := EscapeChar(c), EscapeChar(d);
    assert e[0] == f[0];
    if |e| >= 2 {
      assert e[1] == f[1];
    }
    if |e| == 6 {
      assert e[4] == f[4] && e[5] == f[5];
    }
  }

  lemma EscapeCharDecides(c: char, d: char)
    requires forall i | 0 <= i < |EscapeChar(c)| && i < |EscapeChar(d)| :: EscapeChar(c)[i] == EscapeChar(d)[i]
    ensures c == d
  {
    var e, f := EscapeChar(c), EscapeChar(d);
    EscapeShape(c);
    EscapeShape(d);
    assert e[0] == f[0];
    if |e| >= 2 {
      assert e[1] == f[1];
    }
    assert |e| == |f| && e == f;
    SameEscape(c, d);
  }

  lemma EscapeCharInjective(c: char, d: char, s: string, t: string)
    requires EscapeChar(c) + s == EscapeChar(d) + t
    ensures c == d && s == t
  {
    forall i | 0 <= i < |EscapeChar(c)| && i < |EscapeChar(d)| ensures EscapeChar(c)[i] == EscapeChar(d)[i] {
      Heads(EscapeChar(c), s, EscapeChar(d), t, i);
    }
    EscapeCharDecides(c, d);
    SameHead(EscapeChar(c), s, t);
  }

  lemma SameHead(a: string, s: string, t: string)
    requires a + s == a + t
    ensures s == t
  {
    Cut(a, s, a, t, |a|);
    assert "" + s == s && "" + t == t && a[|a|..] == "";
  }

  lemma Glue(a: string, b: string, c: string)
    ensures (a + b) + c == a + (b + c)
  {
  }

  lemma EscapeFirst(a: string, s: string)
    ensures (Escape(a) + ("\"" + s))[0] == '"' <==> a == ""
  {
    if a != "" {
      assert Escape(a)[0] == EscapeChar(a[0])[0];
    }
  }

  lemma {:induction false} EscapeInjective(a: string, b: string, s: string, t: string)
    requires Escape(a) + ("\"" + s) == Escape(b) + ("\"" + t)
    ensures a == b && s == t
  {
    EscapeFirst(a, s);
    EscapeFirst(b, t);
    if a == "" {
      assert "" + ("\"" + s) == "\"" + s && "" + ("\"" + t) == "\"" + t;
      SameHead("\"", s, t);
    } else {
      Glue(EscapeChar(a[0]), Escape(a[1..]), "\"" + s);
      Glue(EscapeChar(b[0]), Escape(b[1..]), "\"" + t);
      EscapeCharInjective(a[0], b[0], Escape(a[1..]) + ("\"" + s), Escape(b[1..]) + ("\"" + t));
      EscapeInjective(a[1..], b[1..], s, t);
      assert a == [a[0]] + a[1..] && b == [b[0]] + b[1..];
    }
  }

  lemma QuoteText(a: string, s: string)
    ensures Quote(a) + s == "\"" + (Escape(a) + ("\"" + s))
  {
    Glue("\"", Escape(a) + "\"", s);
    Glue(Escape(a), "\"", s);
  }

  lemma QuoteInjective(a: string, b: string, s: string, t: string)
    requires Quote(a) + s == Quote(b) + t
    ensures a == b && s == t
  {
    QuoteText(a, s);
    QuoteText(b, t);
    SameHead("\"", Escape(a) + ("\"" + s), Escape(b) + ("\"" + t));
    EscapeInjective(a, b, s, t);
  }

  /** What may follow a value: nothing, or a delimiter. */
  predicate Ends(s: string) {
    s != "" ==> s[0] in {',', ']', '}'}
  }

  function NumPrefix(x: string): nat {
    if x == "" || !IsNumChar(x[0]) then 0 else 1 + NumPrefix(x[1..])
  }

  lemma {:induction false} NumPrefixOf(a: string, s: string)
    requires Ends(s) && forall i | 0 <= i < |a| :: IsNumChar(a[i])
    ensures NumPrefix(a + s) == |a|
  {
    if a == "" {
      assert a + s == s;
    } else {
      assert (a + s)[0] == a[0] && (a + s)[1..] == a[1..] + s;
      NumPrefixOf(a[1..], s);
    }
  }

  lemma NumInjective(a: string, b: string, s: string, t: string)
    requires a + s == b + t && Ends(s) && Ends(t)
    requires forall i | 0 <= i < |a| :: IsNumChar(a[i])
    requires forall i | 0 <= i < |b| :: IsNumChar(b[i])
    ensures a == b && s == t
  {
    NumPrefixOf(a, s);
    NumPrefixOf(b, t);
    Cut(a, s, b, t, |a|);
    assert a[..|a|] == a && b[..|b|] == b;
    SameHead(a, s, t);
  }

  /** The first character of a printed value tells its constructor. */
  function First(j: Json): char
    requires WellFormed(j)
  {
    match j
    case Null => 'n'
    case Bool(b) => if b then 't' else 'f'
    case Num(t) => t[0]
    case Str(_) => '"'
    case Arr(_) => '['
    case Obj(_) => '{'
  }

  lemma PrintFirst(j: Json)
    requires WellFormed(j)
    ensures Print(j) != "" && Print(j)[0] == First(j)
  {
  }

  /**
   Of two texts that begin with printed values, followed by nothing or a delimiter, the values
   and the rests agree.
   */
  lemma {:induction false} PrintInjective(a: Json, b: Json, s: string, t: string)
    requires WellFormed(a) && WellFormed(b) && Ends(s) && Ends(t)
    requires Print(a) + s == Print(b) + t
    ensures a == b && s == t
  {
    PrintFirst(a);
    PrintFirst(b);
    var x := Print(a) + s;
    assert x[0] == First(a) == First(b);
    match a {
      case Null => SameHead("null", s, t);
      case Bool(_) => SameHead(Print(a), s, t);
      case Num(text) => NumInjective(text, b.text, s, t);
      case Str(text) => QuoteInjective(text, b.s, s, t);
      case Arr(items) =>
        PrintArr(items, s);
        PrintArr(b.items, t);
        SameHead("[", ItemsText(items) + s, ItemsText(b.items) + t);
        ItemsInjective(items, b.items, s, t);
      case Obj(fields) =>
        PrintObj(fields, s);
        PrintObj(b.fields, t);
        SameHead("{", FieldsText(fields) + s, FieldsText(b.fields) + t);
        FieldsInjective(fields, b.fields, s, t);
    }
  }

  /** What follows the opening bracket. */
  function ItemsText(items: Items): string {
    if items.Nil? then "]" else Print(items.head) + PrintMore(items.tail)
  }

  function FieldsText(f: Fields): string {
    if f.Empty? then "}" else PrintField(f.key, f.value) + PrintRest(f.rest)
  }

  lemma PrintArr(items: Items, s: string)
    ensures Print(Arr(items)) + s == "[" + (ItemsText(items) + s)
  {
    Glue("[", ItemsText(items), s);
  }

  lemma PrintObj(f: Fields, s: string)
    ensures Print(Obj(f)) + s == "{" + (FieldsText(f) + s)
  {
    Glue("{", FieldsText(f), s);
  }

  lemma {:induction false} ItemsInjective(a: Items, b: Items, s: string, t: string)
    requires WellFormedItems(a) && WellFormedItems(b) && ItemsText(a) + s == ItemsText(b) + t
    ensures a == b && s == t
    decreases a, 1
  {
    var x := ItemsText(a) + s;
    if a.Item? { PrintFirst(a.head); }
    if b.Item? { PrintFirst(b.head); }
    if a.Nil? || b.Nil? {
      assert x[0] == ItemsText(a)[0] == ItemsText(b)[0];
      SameHead("]", s, t);
    } else {
      Glue(Print(a.head), PrintMore(a.tail), s);
      Glue(Print(b.head), PrintMore(b.tail), t);
      PrintInjective(a.head, b.head, PrintMore(a.tail) + s, PrintMore(b.tail) + t);
      MoreInjective(a.tail, b.tail, s, t);
    }
  }

  lemma {:induction false} MoreInjective(a: Items, b: Items, s: string, t: string)
    requires WellFormedItems(a) && WellFormedItems(b) && PrintMore(a) + s == PrintMore(b) + t
    ensures a == b && s == t
    decreases a, 0
  {
    var x := PrintMore(a) + s;
    assert x[0] == PrintMore(a)[0] == PrintMore(b)[0];
    if a.Nil? {
      SameHead("]", s, t);
    } else {
      Glue(",", Print(a.head) + PrintMore(a.tail), s);
      Glue(",", Print(b.head) + PrintMore(b.tail), t);
      SameHead(",", (Print(a.head) + PrintMore(a.tail)) + s, (Print(b.head) + PrintMore(b.tail)) + t);
      Glue(Print(a.head), PrintMore(a.tail), s);
      Glue(Print(b.head), PrintMore(b.tail), t);
      PrintInjective(a.head, b.head, PrintMore(a.tail) + s, PrintMore(b.tail) + t);
      MoreInjective(a.tail, b.tail, s, t);
    }
  }

  /** One field and what follows it. */
  lemma FieldInjective(a: Fields, b: Fields, s: string, t: string)
    requires a.Field? && b.Field? && WellFormed(a.value) && WellFormed(b.value) && Ends(s) && Ends(t)
    requires PrintField(a.key, a.value) + s == PrintField(b.key, b.value) + t
    ensures a.key == b.key && a.value == b.value && s == t
    decreases a, 0
  {
    FieldText(a.key, a.value, s);
    FieldText(b.key, b.value, t);
    var u, v := Print(a.value) + s, Print(b.value) + t;
    QuoteInjective(a.key, b.key, ":" + u, ":" + v);
    SameHead(":", u, v);
    PrintInjective(a.value, b.value, s, t);
  }

  lemma FieldText(key: string, value: Json, s: string)
    ensures PrintField(key, value) + s == Quote(key) + (":" + (Print(value) + s))
  {
    Glue(Quote(key), ":" + Print(value), s);
    Glue(":", Print(value), s);
  }

  lemma {:induction false} FieldsInjective(a: Fields, b: Fields, s: string, t: string)
    requires WellFormedFields(a) && WellFormedFields(b) && FieldsText(a) + s == FieldsText(b) + t
    ensures a == b && s == t
    decreases a, 2
  {
    var x := FieldsText(a) + s;
    assert x[0] == FieldsText(a)[0] == FieldsText(b)[0];
    if a.Empty? || b.Empty? {
      SameHead("}", s, t);
    } else {
      Glue(PrintField(a.key, a.value), PrintRest(a.rest), s);
      Glue(PrintField(b.key, b.value), PrintRest(b.rest), t);
      FieldInjective(a, b, PrintRest(a.rest) + s, PrintRest(b.rest) + t);
      RestInjective(a.rest, b.rest, s, t);
    }
  }

  lemma {:induction false} RestInjective(a: Fields, b: Fields, s: string, t: string)
    requires WellFormedFields(a) && WellFormedFields(b) && PrintRest(a) + s == PrintRest(b) + t
    ensures a == b && s == t
    decreases a, 1
  {
    var x := PrintRest(a) + s;
    assert x[0] == PrintRest(a)[0] == PrintRest(b)[0];
    if a.Empty? {
      SameHead("}", s, t);
    } else {
      Glue(",", PrintField(a.key, a.value) + PrintRest(a.rest), s);
      Glue(",", PrintField(b.key, b.value) + PrintRest(b.rest), t);
      SameHead(",", (PrintField(a.key, a.value) + PrintRest(a.rest)) + s,
               (PrintField(b.key, b.value) + PrintRest(b.rest)) + t);
      Glue(PrintField(a.key, a.value), PrintRest(a.rest), s);
      Glue(PrintField(b.key, b.value), PrintRest(b.rest), t);
      FieldInjective(a, b, PrintRest(a.rest) + s, PrintRest(b.rest) + t);
      RestInjective(a.rest, b.rest, s, t);
    }
  }

  // ------------------------------------------------------------------ theorem

  /** JSON.stringify with sorted keys. */
  function StableStringify(j: Json): string {
    Print(Normal(j))
  }

  /** Two values have the same stable text exactly when they are equal up to key order at every depth. */
  lemma StableStringifyIff(a: Json, b: Json)
    requires WellFormed(a) && WellFormed(b)
    ensures StableStringify(a) == StableStringify(b) <==> Same(a, b)
  {
    SameIffNormal(a, b);
    NormalWellFormed(a);
    NormalWellFormed(b);
    if StableStringify(a) == StableStringify(b) {
      PrintInjective(Normal(a), Normal(b), "", "");
    }
  }

  lemma {:induction false} NormalWellFormed(j: Json)
    requires WellFormed(j)
    ensures WellFormed(Normal(j))
  {
    match j {
      case Arr(items) => NormalItemsWellFormed(items);
      case Obj(fields) => NormalFieldsWellFormed(fields);
      case _ =>
    }
  }

  lemma {:induction false} NormalItemsWellFormed(items: Items)
    requires WellFormedItems(items)
    ensures WellFormedItems(NormalItems(items))
  {
    if items.Item? {
      NormalWellFormed(items.head);
      NormalItemsWellFormed(items.tail);
    }
  }

  lemma {:induction false} NormalFieldsWellFormed(f: Fields)
    requires WellFormedFields(f)
    ensures WellFormedFields(NormalFields(f))
  {
    if f.Field? {
      NormalWellFormed(f.value);
      NormalFieldsWellFormed(f.rest);
      NormalLookup(f.rest, f.key);
      InsertWellFormed(f.key, Normal(f.value), NormalFields(f.rest));
    }
  }

  lemma {:induction false} InsertWellFormed(k: string, v: Json, f: Fields)
    requires WellFormedFields(f) && WellFormed(v) && Lookup(f, k).None?
    ensures WellFormedFields(Insert(k, v, f))
  {
    if f.Field? && !KeyLess(k, f.key) {
      InsertWellFormed(k, v, f.rest);
      InsertLookup(k, v, f.rest, f.key);
    }
  }
}
