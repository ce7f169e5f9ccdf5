/**
 The dimensions of a rule: the variables it mentions anywhere, gathered by a walk that
 adds to one shared set, and what they say about the compiled condition.
 */
module Dimensions {
  import opened Wrappers
  import opened CanonicalJson
  import opened JsonLogic

  /** The variables mentioned in a value; nothing inside a reference is looked at. */
  function Dims(j: Json): set<string> {
    match j
    case Arr(items) => DimsOf(items)
    case Obj(fields) => if VarName(j).Some? then {VarName(j).value} else DimsIn(fields)
    case _ => {}
  }

  function DimsOf(items: Items): set<string> {
    if items.Nil? then {} else Dims(items.head) + DimsOf(items.tail)
  }

  function DimsIn(f: Fields): set<string> {
    if f.Empty? then {} else Dims(f.value) + DimsIn(f.rest)
  }

  // --------------------------------------------------- dimensions by their paths

  function Values(f: Fields): Items {
    if f.Empty? then Nil else Item(f.value, Values(f.rest))
  }

  /** The items of an array, or the values of an object. */
  function Children(j: Json): Items {
    match j
    case Arr(items) => items
    case Obj(fields) => Values(fields)
    case _ => Nil
  }

  /** The path leads from j, by the places of children, to a reference to f, and through no other reference. */
  predicate LeadsTo(j: Json, path: seq<nat>, f: string)
    decreases |path|
  {
    var reference := if j.Obj? then Lookup(j.fields, "var") else None;
    if path == [] then reference == Some(Str(f))
    else
      && !(reference.Some? && reference.value.Str?)
      && Nth(Children(j), path[0]).Some? && LeadsTo(Nth(Children(j), path[0]).value, path[1..], f)
  }

  lemma {:induction false} DimsOfValues(f: Fields)
    ensures DimsIn(f) == DimsOf(Values(f))
  {
    if f.Field? { DimsOfValues(f.rest); }
  }

  lemma {:induction false} DimsOfNth(items: Items, i: nat)
    requires Nth(items, i).Some?
    ensures Dims(Nth(items, i).value) <= DimsOf(items)
  {
    if i > 0 { DimsOfNth(items.tail, i - 1); }
  }

  lemma {:induction false} ChildWith(items: Items, f: string) returns (i: nat)
    requires f in DimsOf(items)
    ensures Nth(items, i).Some? && f in Dims(Nth(items, i).value) && Nth(items, i).value < items
  {
    if f in Dims(items.head) {
      i := 0;
    } else {
      var k := ChildWith(items.tail, f);
      i := k + 1;
    }
  }

  lemma {:induction false} FieldWith(fields: Fields, f: string) returns (i: nat)
    requires f in DimsIn(fields)
    ensures var v := Nth(Values(fields), i); v.Some? && f in Dims(v.value) && v.value < fields
  {
    if f in Dims(fields.value) {
      i := 0;
    } else {
      var k := FieldWith(fields.rest, f);
      i := k + 1;
    }
  }

  lemma {:induction false} PathTo(j: Json, f: string) returns (path: seq<nat>)
    requires f in Dims(j)
    ensures LeadsTo(j, path, f)
    decreases j
  {
    if VarName(j).Some? {
      path := [];
    } else {
      var i: nat;
      if j.Arr? { i := ChildWith(j.items, f); } else { i := FieldWith(j.fields, f); }
      var rest := PathTo(Nth(Children(j), i).value, f);
      path := [i] + rest;
      assert path[1..] == rest;
    }
  }

  lemma {:induction false} OnPath(j: Json, path: seq<nat>, f: string)
    requires LeadsTo(j, path, f)
    ensures f in Dims(j)
    decreases |path|
  {
    if path != [] {
      OnPath(Nth(Children(j), path[0]).value, path[1..], f);
      DimsOfNth(Children(j), path[0]);
      if j.Obj? { DimsOfValues(j.fields); }
    }
  }

  /** Some path through anything but references leads to a reference to f. */
  ghost predicate Mentions(j: Json, f: string) {
    exists path :: LeadsTo(j, path, f)
  }

  /** The dimensions of a rule are the variables that it mentions. */
  lemma DimsIff(j: Json, f: string)
    ensures f in Dims(j) <==> Mentions(j, f)
  {
    if f in Dims(j) {
      var path := PathTo(j, f);
    }
    if Mentions(j, f) {
      var path :| LeadsTo(j, path, f);
      OnPath(j, path, f);
    }
  }

  // -------------------------------------------------------------------- the walk

  class Walker {
    var dimensions: set<string>

    constructor ()
      ensures dimensions == {}
    {
      dimensions := {};
    }

    method Walk(node: Json)
      modifies this
      ensures dimensions == old(dimensions) + Dims(node)
      decreases node, 1
    {
      if node.Arr? {
        var items := node.items;
        while items.Item?
          invariant items == node.items || items < node
          invariant dimensions + DimsOf(items) == old(dimensions) + DimsOf(node.items)
          decreases items
        {
          Walk(items.head);
          items := items.tail;
        }
        return;
      }
      if !node.Obj? {
        return;
      }
      var varValue := VarName(node);
      if varValue.Some? {
        dimensions := dimensions + {varValue.value};
        return;
      }
      var fields := node.fields;
      while fields.Field?
        invariant fields == node.fields || fields < node
        invariant dimensions + DimsIn(fields) == old(dimensions) + DimsIn(node.fields)
        decreases fields
      {
        Walk(fields.value);
        fields := fields.rest;
      }
    }
  }

  /** `extractDimensions`. */
  method ExtractDimensions(rule: Json) returns (dimensions: set<string>)
    ensures dimensions == Dims(rule)
  {
    var walker := new Walker();
    walker.Walk(rule);
    dimensions := walker.dimensions;
  }

  // --------------------------------------------------------------- the condition

  /** The fields a condition reads. */
  function Fields(c: Cond): set<string> {
    match c
    case Compare(_, field, _) => {field}
    case Within(field, _) => {field}
    case Exists(field, _) => {field}
    case And(children) => FieldsOf(children)
    case Or(children) => FieldsOf(children)
    case Not(child) => Fields(child)
  }

  function FieldsOf(cs: Conds): set<string> {
    if cs.NoCond? then {} else Fields(cs.head) + FieldsOf(cs.tail)
  }

  /** A rule that compiles is not itself a reference, so its dimensions are those of its operands. */
  lemma DimsOfRule(rule: Json)
    requires !Read(rule).Bad?
    ensures VarName(rule).None? && Dims(rule) == Dims(rule.fields.value)
  {
    assert rule.fields.key != "var" && Lookup(rule.fields.rest, "var").None?;
    assert DimsIn(rule.fields) == Dims(rule.fields.value) + DimsIn(Empty);
  }

  lemma DimsOfPair(operands: Json)
    requires Two(operands)
    ensures Dims(operands) == Dims(operands.items.head) + Dims(operands.items.tail.head)
  {
    assert DimsOf(operands.items.tail) == Dims(operands.items.tail.head) + DimsOf(Nil);
  }

  /** Every field of the compiled condition is among the rule's dimensions. */
  lemma {:induction false} FieldsAreDims(rule: Json)
    requires Compile(rule).Ok?
    ensures Fields(Compile(rule).value) <= Dims(rule)
    decreases rule
  {
    DimsOfRule(rule);
    var operands := rule.fields.value;
    match Read(rule) {
      case Junction(_, items) => AllFieldsAreDims(items);
      case Negation(inner) => FieldsAreDims(inner);
      case Truth(f) => assert Dims(JsonLogic.First(operands).value) == {f};
      case Comparison(_, _, _) => DimsOfPair(operands);
      case Membership(_, _) => DimsOfPair(operands);
    }
  }

  lemma {:induction false} AllFieldsAreDims(rules: Items)
    requires CompileAll(rules).Ok?
    ensures FieldsOf(CompileAll(rules).value) <= DimsOf(rules)
    decreases rules
  {
    if rules.Item? {
      FieldsAreDims(rules.head);
      AllFieldsAreDims(rules.tail);
    }
  }

  // ------------------------------------------------------------------- the frame

  predicate AgreeOn(dims: set<string>, d: Data, e: Data) {
    forall f | f in dims :: Get(d, f) == Get(e, f)
  }

  lemma {:induction false} HoldsFrame(m: Meaning, c: Cond, d: Data, e: Data)
    requires AgreeOn(Fields(c), d, e)
    ensures Holds(m, c, d) == Holds(m, c, e) && Sql(m, c, d) == Sql(m, c, e)
  {
    match c {
      case And(children) => AllHoldFrame(m, children, d, e);
      case Or(children) => AllHoldFrame(m, children, d, e);
      case Not(child) => HoldsFrame(m, child, d, e);
      case _ =>
    }
  }

  lemma {:induction false} AllHoldFrame(m: Meaning, cs: Conds, d: Data, e: Data)
    requires AgreeOn(FieldsOf(cs), d, e)
    ensures AllHold(m, cs, d) == AllHold(m, cs, e) && AnyHolds(m, cs, d) == AnyHolds(m, cs, e)
    ensures SqlAll(m, cs, d) == SqlAll(m, cs, e) && SqlAny(m, cs, d) == SqlAny(m, cs, e)
  {
    if cs.Conds? {
      HoldsFrame(m, cs.head, d, e);
      AllHoldFrame(m, cs.tail, d, e);
    }
  }

  /** Two records that agree on a rule's dimensions get the same verdict, in two-valued and in three-valued logic. */
  lemma DimensionsFrame(m: Meaning, rule: Json, d: Data, e: Data)
    requires Compile(rule).Ok? && AgreeOn(Dims(rule), d, e)
    ensures Holds(m, Compile(rule).value, d) == Holds(m, Compile(rule).value, e)
    ensures Sql(m, Compile(rule).value, d) == Sql(m, Compile(rule).value, e)
  {
    FieldsAreDims(rule);
    HoldsFrame(m, Compile(rule).value, d, e);
  }

  // -------------------------------------------------------------------- exactness

  /** The operands that the compiler does not look at, or takes as values, mention no variables. */
  predicate NothingHidden(rule: Json)
    requires Compile(rule).Ok?
    decreases rule
  {
    var operands := rule.fields.value;
    match Read(rule)
    case Junction(_, items) => AllNothingHidden(items)
    case Negation(inner) => (operands.Arr? ==> DimsOf(operands.items.tail) == {}) && NothingHidden(inner)
    case Truth(_) => operands.Arr? ==> DimsOf(operands.items.tail) == {}
    case Comparison(_, _, right) => Dims(right) == {}
    case Membership(_, list) => DimsOf(list) == {}
  }

  predicate AllNothingHidden(rules: Items)
    requires CompileAll(rules).Ok?
    decreases rules
  {
    rules.Item? ==> NothingHidden(rules.head) && AllNothingHidden(rules.tail)
  }

  /** Then the dimensions are exactly the condition's fields. */
  lemma {:induction false} DimsAreFields(rule: Json)
    requires Compile(rule).Ok? && NothingHidden(rule)
    ensures Dims(rule) == Fields(Compile(rule).value)
    decreases rule
  {
    DimsOfRule(rule);
    var operands := rule.fields.value;
    match Read(rule) {
      case Junction(_, items) => AllDimsAreFields(items);
      case Negation(inner) => DimsAreFields(inner);
      case Truth(f) => assert Dims(JsonLogic.First(operands).value) == {f};
      case Comparison(_, _, _) => DimsOfPair(operands);
      case Membership(_, _) => DimsOfPair(operands);
    }
  }

  lemma {:induction false} AllDimsAreFields(rules: Items)
    requires CompileAll(rules).Ok? && AllNothingHidden(rules)
    ensures DimsOf(rules) == FieldsOf(CompileAll(rules).value)
    decreases rules
  {
    if rules.Item? {
      DimsAreFields(rules.head);
      AllDimsAreFields(rules.tail);
    }
  }
}
