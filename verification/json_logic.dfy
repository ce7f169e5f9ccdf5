/**
 Group rules: from JsonLogic to the condition tree that SQL is made from, and the
 meanings of both. What `==`, `<`, `in` and the rest make of two values is a parameter:
 the results hold for every interpretation.
 */
module JsonLogic {
  import opened Wrappers
  import opened CanonicalJson

  // ------------------------------------------------------------- condition trees

  datatype Op = Eq | Ne | Gt | Gte | Lt | Lte

  datatype Cond =
    | Compare(op: Op, field: string, value: Json)
    | Within(field: string, list: Items)
    | Exists(field: string, present: bool)
    | And(children: Conds)
    | Or(children: Conds)
    | Not(child: Cond)

  datatype Conds = NoCond | Conds(head: Cond, tail: Conds)

  datatype Error =
    | NotOneOperator | NeedsArray | NeedsVariable | NeedsTwoOperands | NeedsList | EmptyList | MissingOperand
    | Unsupported

  // ------------------------------------------------------------------ one node

  /** `isVarRef`: an object whose `var` is a string, whatever else it has. */
  function VarName(j: Json): Option<string> {
    if j.Obj? && Lookup(j.fields, "var").Some? && Lookup(j.fields, "var").value.Str?
    then Some(Lookup(j.fields, "var").value.s) else None
  }

  function Operator(key: string): Option<Op> {
    if key == "==" then Some(Eq)
    else if key == "!=" then Some(Ne)
    else if key == ">" then Some(Gt)
    else if key == ">=" then Some(Gte)
    else if key == "<" then Some(Lt)
    else if key == "<=" then Some(Lte)
    else None
  }

  /** A rule node, its operands read but not yet compiled. */
  datatype Node =
    | Junction(isAnd: bool, operands: Items)
    | Negation(inner: Json)
    | Truth(field: string)
    | Comparison(op: Op, field: string, right: Json)
    | Membership(field: string, list: Items)
    | Bad(error: Error)

  predicate Two(j: Json) {
    j.Arr? && j.items.Item? && j.items.tail.Item? && j.items.tail.tail.Nil?
  }

  /** `Array.isArray(operands) ? operands[0] : operands`. */
  function First(operands: Json): Option<Json> {
    if !operands.Arr? then Some(operands)
    else if operands.items.Nil? then None
    else Some(operands.items.head)
  }

  function ReadPair(key: string, operands: Json): Node {
    if !Two(operands) then Bad(NeedsTwoOperands)
    else
      var left, right := operands.items.head, operands.items.tail.head;
      if VarName(left).None? then Bad(NeedsVariable)
      else if Operator(key).Some? then Comparison(Operator(key).value, VarName(left).value, right)
      else if !right.Arr? then Bad(NeedsList)
      else if right.items.Nil? then Bad(EmptyList)
      else Membership(VarName(left).value, right.items)
  }

  /** `jsonLogicToUcast` up to its recursive calls. */
  function Read(rule: Json): (n: Node)
    ensures n.Junction? ==> n.operands < rule
    ensures n.Negation? ==> n.inner < rule
  {
    if !rule.Obj? || rule.fields.Empty? || rule.fields.rest.Field? then Bad(NotOneOperator)
    else
      var key, operands := rule.fields.key, rule.fields.value;
      if key == "and" || key == "or" then
        if operands.Arr? then Junction(key == "and", operands.items) else Bad(NeedsArray)
      else if key == "!" then
        if First(operands).None? then Bad(MissingOperand) else Negation(First(operands).value)
      else if key == "!!" then
        if First(operands).None? || VarName(First(operands).value).None? then Bad(NeedsVariable)
        else Truth(VarName(First(operands).value).value)
      else if Operator(key).Some? || key == "in" then ReadPair(key, operands)
      else Bad(Unsupported)
  }

  function Key(op: Op): string {
    match op
    case Eq => "=="
    case Ne => "!="
    case Gt => ">"
    case Gte => ">="
    case Lt => "<"
    case Lte => "<="
  }

  function Single(key: string, value: Json): Json {
    Obj(Field(key, value, Empty))
  }

  function Pair(key: string, field: string, right: Json): Json {
    Single(key, Arr(Item(Single("var", Str(field)), Item(right, Nil))))
  }

  /** The plainest spelling of a node. */
  function Write(n: Node): Json
    requires !n.Bad?
  {
    match n
    case Junction(isAnd, operands) => Single(if isAnd then "and" else "or", Arr(operands))
    case Negation(inner) => Single("!", Arr(Item(inner, Nil)))
    case Truth(field) => Single("!!", Arr(Item(Single("var", Str(field)), Nil)))
    case Comparison(op, field, right) => Pair(Key(op), field, right)
    case Membership(field, list) => Pair("in", field, Arr(list))
  }

  lemma OperatorKey(op: Op)
    ensures Operator(Key(op)) == Some(op)
    ensures Key(op) !in {"and", "or", "!", "!!", "in", "var"}
  {
    assert |Key(op)| <= 2 && Key(op)[0] in {'=', '!', '>', '<'};
  }

  /** Every node can be written, but membership in an empty list, and is read back as it was. */
  lemma ReadWriteIff(n: Node)
    requires !n.Bad?
    ensures Read(Write(n)) == n <==> !n.Membership? || n.list.Item?
  {
    match n {
      case Comparison(op, field, right) =>
        OperatorKey(op);
        assert Two(Write(n).fields.value) && VarName(Single("var", Str(field))) == Some(field);
        assert ReadPair(Key(op), Write(n).fields.value) == n;
      case Membership(field, list) =>
        assert Two(Write(n).fields.value) && VarName(Single("var", Str(field))) == Some(field);
        assert Operator("in") == None;
      case Truth(field) => assert VarName(Single("var", Str(field))) == Some(field);
      case _ =>
    }
  }

  // ---------------------------------------------------------------- the compiler

  function Compile(rule: Json): Result<Cond, Error>
    decreases rule
  {
    match Read(rule)
    case Junction(isAnd, operands) =>
      var cs := CompileAll(operands);
      if cs.Err? then Err(cs.error) else Ok(if isAnd then And(cs.value) else Or(cs.value))
    case Negation(inner) =>
      var c := Compile(inner);
      if c.Err? then c else Ok(Not(c.value))
    case Truth(field) => Ok(Compare(Eq, field, Bool(true)))
    case Comparison(op, field, right) => Ok(if right.Null? then Exists(field, op == Ne) else Compare(op, field, right))
    case Membership(field, list) => Ok(Within(field, list))
    case Bad(error) => Err(error)
  }

  function CompileAll(rules: Items): Result<Conds, Error>
    decreases rules
  {
    match rules
    case Nil => Ok(NoCond)
    case Item(head, tail) =>
      var c := Compile(head);
      if c.Err? then Err(c.error)
      else
        var cs := CompileAll(tail);
        if cs.Err? then cs else Ok(Conds(c.value, cs.value))
  }

  // ------------------------------------------------------------------- meanings

  /** A record: a dimension that is missing is null. */
  type Data = map<string, Json>

  function Get(data: Data, f: string): Json {
    if f in data then data[f] else Null
  }

  /** An interpretation of the operators on values. */
  datatype Meaning = Meaning(compare: (Op, Json, Json) -> bool, isIn: (Json, Items) -> bool)

  /** Only null equals null, and a boolean equals true exactly when it is true. */
  ghost predicate Sane(m: Meaning) {
    && (forall x: Json :: m.compare(Eq, x, Null) <==> x.Null?)
    && (forall x: Json :: m.compare(Ne, x, Null) <==> !x.Null?)
    && (forall b: bool :: m.compare(Eq, Bool(b), Bool(true)) <==> b)
    && !m.compare(Eq, Null, Bool(true))
  }

  /** The meaning of a condition tree on a record. */
  function Holds(m: Meaning, c: Cond, data: Data): bool {
    match c
    case Compare(op, field, value) => m.compare(op, Get(data, field), value)
    case Within(field, list) => m.isIn(Get(data, field), list)
    case Exists(field, present) => Get(data, field).Null? != present
    case And(children) => AllHold(m, children, data)
    case Or(children) => AnyHolds(m, children, data)
    case Not(child) => !Holds(m, child, data)
  }

  function AllHold(m: Meaning, cs: Conds, data: Data): bool {
    cs.Conds? ==> Holds(m, cs.head, data) && AllHold(m, cs.tail, data)
  }

  function AnyHolds(m: Meaning, cs: Conds, data: Data): bool {
    cs.Conds? && (Holds(m, cs.head, data) || AnyHolds(m, cs.tail, data))
  }

  /** JsonLogic's truthiness: like JavaScript's, but an empty array is false. */
  predicate Truthy(j: Json) {
    match j
    case Null => false
    case Bool(b) => b
    case Num(t) => t != "0"
    case Str(s) => s != ""
    case Arr(items) => items.Item?
    case Obj(_) => true
  }

  lemma FalsyIff(j: Json)
    ensures !Truthy(j) <==> j in {Null, Bool(false), Num("0"), Str(""), Arr(Nil)}
  {
  }

  /** The operators on two values; membership is in lists only. */
  function EvalPair(m: Meaning, key: string, a: Json, b: Json): Json {
    if Operator(key).Some? then Bool(m.compare(Operator(key).value, a, b))
    else if key == "in" then Bool(b.Arr? && m.isIn(a, b.items))
    else Null
  }

  /** JsonLogic's value of a rule; operators other than the compiler's, and operands they lack, give null. */
  function Eval(m: Meaning, j: Json, data: Data): Json
    decreases j, 0
  {
    match j
    case Arr(items) => Arr(EvalAll(m, items, data))
    case Obj(fields) =>
      if fields.Empty? || fields.rest.Field? then j
      else
        var key, operands := fields.key, fields.value;
        if key == "var" then
          if operands.Str? then Get(data, operands.s) else Null
        else if key == "and" || key == "or" then
          if operands.Arr? then EvalJunction(m, key == "and", operands.items, data) else Eval(m, operands, data)
        else if key == "!" || key == "!!" then
          var v := if !operands.Arr? then Eval(m, operands, data)
                   else if operands.items.Item? then Eval(m, operands.items.head, data) else Null;
          Bool(Truthy(v) == (key == "!!"))
        else if Two(operands) then
          EvalPair(m, key, Eval(m, operands.items.head, data), Eval(m, operands.items.tail.head, data))
        else Null
    case _ => j
  }

  function EvalAll(m: Meaning, items: Items, data: Data): Items
    decreases items, 0
  {
    match items
    case Nil => Nil
    case Item(head, tail) => Item(Eval(m, head, data), EvalAll(m, tail, data))
  }

  /**
   `and` gives the first false operand or the last one, `or` the first true one or the last;
   without operands, undefined.
   */
  function EvalJunction(m: Meaning, isAnd: bool, items: Items, data: Data): Json
    decreases items, 0
  {
    match items
    case Nil => Null
    case Item(head, tail) =>
      var v := Eval(m, head, data);
      if Truthy(v) != isAnd || tail.Nil? then v else EvalJunction(m, isAnd, tail, data)
  }

  // ------------------------------------------------------------- meaning preserved

  /** The reference to a field, as rules write it. */
  function Ref(field: string): Json {
    Obj(Field("var", Str(field), Empty))
  }

  /** A rule of one operator on two operands. */
  function Rule2(key: string, a: Json, b: Json): Json {
    Obj(Field(key, Arr(Item(a, Item(b, Nil))), Empty))
  }

  lemma Ref2(key: string, f: string, right: Json)
    ensures VarName(Ref(f)) == Some(f)
    ensures Two(Rule2(key, Ref(f), right).fields.value)
  {
  }

  lemma EvalRule2(m: Meaning, key: string, a: Json, b: Json, data: Data)
    requires key !in {"and", "or", "!", "!!", "var"}
    ensures Eval(m, Rule2(key, a, b), data) == EvalPair(m, key, Eval(m, a, data), Eval(m, b, data))
  {
    assert Two(Rule2(key, a, b).fields.value);
  }

  lemma EvalRef(m: Meaning, f: string, data: Data)
    ensures Eval(m, Ref(f), data) == Get(data, f)
  {
  }

  /** Which condition each of the comparison keys gives, and which comparison JsonLogic makes of it. */
  lemma ComparisonKeys(m: Meaning, key: string, op: Op, f: string, right: Json, data: Data)
    requires (key, op) in {("==", Eq), ("!=", Ne), (">", Gt), (">=", Gte), ("<", Lt), ("<=", Lte)}
    ensures !right.Null? ==> Compile(Rule2(key, Ref(f), right)) == Ok(Compare(op, f, right))
    ensures Eval(m, Rule2(key, Ref(f), right), data) ==
            Bool(m.compare(op, if f in data then data[f] else Null, Eval(m, right, data)))
  {
    assert Operator(key) == Some(op) && key !in {"and", "or", "!", "!!", "var", "in"};
    Ref2(key, f, right);
    EvalRef(m, f, data);
    EvalRule2(m, key, Ref(f), right, data);
    assert Read(Rule2(key, Ref(f), right)) == Comparison(op, f, right);
  }

  /** With null, an inequality asks for a value, and every other comparison for the lack of one. */
  lemma NullKeys(f: string, key: string, data: Data, m: Meaning)
    requires key in {"==", "!=", ">", ">=", "<", "<="}
    ensures Compile(Rule2(key, Ref(f), Null)).Ok?
    ensures Holds(m, Compile(Rule2(key, Ref(f), Null)).value, data) <==>
            (if key == "!=" then f in data && data[f] != Null else f !in data || data[f] == Null)
  {
    Ref2(key, f, Null);
    assert Operator(key).Some? && (Operator(key) == Some(Ne) <==> key == "!=");
    assert key !in {"and", "or", "!", "!!"};
    assert Read(Rule2(key, Ref(f), Null)) == Comparison(Operator(key).value, f, Null);
  }

  /** `in` compiles to a membership in the list as written, and means one in the list's values. */
  lemma InKey(m: Meaning, f: string, list: Items, data: Data)
    ensures list.Item? ==> Compile(Rule2("in", Ref(f), Arr(list))) == Ok(Within(f, list))
    ensures Eval(m, Rule2("in", Ref(f), Arr(list)), data) ==
            Bool(m.isIn(if f in data then data[f] else Null, EvalAll(m, list, data)))
  {
    var key := "in";
    Ref2(key, f, Arr(list));
    EvalRef(m, f, data);
    EvalRule2(m, key, Ref(f), Arr(list), data);
    assert Operator(key) == None && key !in {"and", "or", "!", "!!"};
    assert Read(Rule2(key, Ref(f), Arr(list))) == ReadPair(key, Arr(Item(Ref(f), Item(Arr(list), Nil))));
  }

  /** `!` and `!!` of one operand. */
  lemma NotKeys(m: Meaning, f: string, a: Json, data: Data)
    ensures Compile(a).Ok? ==> Compile(Single("!", Arr(Item(a, Nil)))) == Ok(Not(Compile(a).value))
    ensures Compile(Single("!!", Ref(f))) == Ok(Compare(Eq, f, Bool(true)))
    ensures Eval(m, Single("!", Arr(Item(a, Nil))), data) == Bool(!Truthy(Eval(m, a, data)))
    ensures Eval(m, Single("!!", Arr(Item(a, Nil))), data) == Bool(Truthy(Eval(m, a, data)))
  {
    Ref2("!!", f, Null);
    assert Read(Single("!", Arr(Item(a, Nil)))) == Negation(a);
    assert Read(Single("!!", Ref(f))) == Truth(f);
  }

  /** `and` and `or` of two operands. */
  lemma JunctionKeys(m: Meaning, key: string, a: Json, b: Json, data: Data)
    requires key == "and" || key == "or"
    ensures Compile(a).Ok? && Compile(b).Ok? ==>
              var two := Conds(Compile(a).value, Conds(Compile(b).value, NoCond));
              Compile(Rule2(key, a, b)) == Ok(if key == "and" then And(two) else Or(two))
    ensures Truthy(Eval(m, Rule2(key, a, b), data)) <==>
            var x, y := Truthy(Eval(m, a, data)), Truthy(Eval(m, b, data));
            if key == "and" then x && y else x || y
  {
    var last := Item(b, Nil);
    assert CompileAll(last) == if Compile(b).Err? then Err(Compile(b).error) else Ok(Conds(Compile(b).value, NoCond));
    assert Read(Rule2(key, a, b)) == Junction(key == "and", Item(a, last));
    assert EvalJunction(m, key == "and", last, data) == Eval(m, b, data);
    assert Eval(m, Rule2(key, a, b), data) == EvalJunction(m, key == "and", Item(a, last), data);
  }

  /** A rule with no operator, with two of them, or with one of no name listed, is refused. */
  lemma OperatorsRefused(key: string, a: Json, more: Fields)
    ensures !a.Obj? ==> Compile(a) == Err(NotOneOperator)
    ensures Compile(Obj(Empty)) == Err(NotOneOperator)
    ensures more.Field? ==> Compile(Obj(Field(key, a, more))) == Err(NotOneOperator)
    ensures key !in {"and", "or", "!", "!!", "==", "!=", ">", ">=", "<", "<=", "in"} ==>
              Compile(Single(key, a)) == Err(Unsupported)
  {
    assert Read(Obj(Field(key, a, more))).Bad? || more.Empty?;
    if key !in {"and", "or", "!", "!!", "==", "!=", ">", ">=", "<", "<=", "in"} {
      assert Read(Single(key, a)) == Bad(Unsupported);
    }
  }

  /** So are operands that are too few, too many or no list. */
  lemma OperandsRefused(key: string, a: Json)
    ensures key in {"and", "or"} && !a.Arr? ==> Compile(Single(key, a)) == Err(NeedsArray)
    ensures Compile(Single("!", Arr(Nil))) == Err(MissingOperand)
    ensures key in {"==", "!=", ">", ">=", "<", "<=", "in"} &&
            !(a.Arr? && a.items.Item? && a.items.tail.Item? && a.items.tail.tail.Nil?) ==>
              Compile(Single(key, a)) == Err(NeedsTwoOperands)
  {
    if key in {"and", "or"} && !a.Arr? {
      assert Read(Single(key, a)) == Bad(NeedsArray);
    }
    assert Read(Single("!", Arr(Nil))) == Bad(MissingOperand);
    if key in {"==", "!=", ">", ">=", "<", "<=", "in"} && !Two(a) {
      assert Operator(key).Some? || key == "in";
      assert key !in {"and", "or", "!", "!!"};
      assert Read(Single(key, a)) == Bad(NeedsTwoOperands);
    }
  }

  /** And the first operand must be a reference, and what membership is in a list with something in it. */
  lemma ReferencesNeeded(key: string, a: Json, b: Json)
    requires key in {"==", "!=", ">", ">=", "<", "<=", "in"}
    ensures !(a.Obj? && Lookup(a.fields, "var").Some? && Lookup(a.fields, "var").value.Str?) ==>
              && Compile(Rule2(key, a, b)) == Err(NeedsVariable)
              && Compile(Single("!!", Arr(Item(a, Nil)))) == Err(NeedsVariable)
    ensures a.Obj? && Lookup(a.fields, "var").Some? && Lookup(a.fields, "var").value.Str? && key == "in" ==>
              && (!b.Arr? ==> Compile(Rule2(key, a, b)) == Err(NeedsList))
              && (b == Arr(Nil) ==> Compile(Rule2(key, a, b)) == Err(EmptyList))
  {
    assert key !in {"and", "or", "!", "!!"} && (Operator(key).Some? <==> key != "in");
    var operands := Arr(Item(a, Item(b, Nil)));
    assert Two(operands) && Read(Rule2(key, a, b)) == ReadPair(key, operands);
    var one := Single("!!", Arr(Item(a, Nil)));
    assert VarName(a).None? ==> Read(one) == Bad(NeedsVariable);
  }

  /** What holds on a record: a comparison and membership of what it has there, or of null. */
  lemma TreeLeaf(m: Meaning, data: Data, f: string, op: Op, value: Json, list: Items)
    ensures var x := if f in data then data[f] else Null;
            && Holds(m, Compare(op, f, value), data) == m.compare(op, x, value)
            && Holds(m, Within(f, list), data) == m.isIn(x, list)
            && Holds(m, Exists(f, true), data) == (x != Null) && Holds(m, Exists(f, false), data) == (x == Null)
  {
  }

  /** And the connectives. */
  lemma TreeConnectives(m: Meaning, data: Data, a: Cond, b: Cond)
    ensures Holds(m, Not(a), data) == !Holds(m, a, data)
    ensures Holds(m, And(Conds(a, Conds(b, NoCond))), data) == (Holds(m, a, data) && Holds(m, b, data))
    ensures Holds(m, Or(Conds(a, Conds(b, NoCond))), data) == (Holds(m, a, data) || Holds(m, b, data))
    ensures Holds(m, And(NoCond), data) && !Holds(m, Or(NoCond), data)
  {
    var last := Conds(b, NoCond);
    assert AllHold(m, NoCond, data) && !AnyHolds(m, NoCond, data);
    assert AllHold(m, last, data) == Holds(m, b, data) == AnyHolds(m, last, data);
    assert Holds(m, And(Conds(a, last)), data) == AllHold(m, Conds(a, last), data);
    assert Holds(m, Or(Conds(a, last)), data) == AnyHolds(m, Conds(a, last), data);
  }

  /** JsonLogic leaves the value as it is: nothing in it is an operator. */
  predicate Literal(j: Json) {
    match j
    case Arr(items) => Literals(items)
    case Obj(fields) => fields.Empty? || fields.rest.Field?
    case _ => true
  }

  predicate Literals(items: Items) {
    items.Item? ==> Literal(items.head) && Literals(items.tail)
  }

  /** A variable reference and nothing else. */
  predicate PureVar(j: Json) {
    VarName(j).Some? && j.fields.rest.Empty?
  }

  /** An order comparison is not with null. */
  predicate NullOnlyForEquality(op: Op, right: Json) {
    right.Null? ==> op == Eq || op == Ne
  }

  /** The operands of one node, as the compiler takes them: references pure, right operands literal, no empty `and`. */
  predicate PlainNode(rule: Json)
    requires !Read(rule).Bad?
  {
    var operands := rule.fields.value;
    match Read(rule)
    case Junction(isAnd, items) => isAnd ==> items.Item?
    case Negation(_) => true
    case Truth(_) => PureVar(First(operands).value)
    case Comparison(op, _, right) => PureVar(operands.items.head) && Literal(right) && NullOnlyForEquality(op, right)
    case Membership(_, list) => PureVar(operands.items.head) && Literals(list)
  }

  predicate Plain(rule: Json)
    requires Compile(rule).Ok?
    decreases rule
  {
    && PlainNode(rule)
    && (Read(rule).Junction? ==> AllPlain(Read(rule).operands))
    && (Read(rule).Negation? ==> Plain(Read(rule).inner))
  }

  predicate AllPlain(rules: Items)
    requires CompileAll(rules).Ok?
    decreases rules
  {
    rules.Item? ==> Plain(rules.head) && AllPlain(rules.tail)
  }

  /** The dimensions that `!!` is applied to. */
  function TruthDims(rule: Json): set<string>
    decreases rule
  {
    match Read(rule)
    case Junction(_, operands) => AllTruthDims(operands)
    case Negation(inner) => TruthDims(inner)
    case Truth(field) => {field}
    case _ => {}
  }

  function AllTruthDims(rules: Items): set<string>
    decreases rules
  {
    if rules.Nil? then {} else TruthDims(rules.head) + AllTruthDims(rules.tail)
  }

  predicate BooleanOrNull(data: Data, dims: set<string>) {
    forall f | f in dims :: Get(data, f).Bool? || Get(data, f).Null?
  }

  lemma {:induction false} LiteralEval(m: Meaning, j: Json, data: Data)
    requires Literal(j)
    ensures Eval(m, j, data) == j
    decreases j
  {
    if j.Arr? {
      LiteralsEval(m, j.items, data);
    }
  }

  lemma {:induction false} LiteralsEval(m: Meaning, items: Items, data: Data)
    requires Literals(items)
    ensures EvalAll(m, items, data) == items
    decreases items
  {
    if items.Item? {
      LiteralEval(m, items.head, data);
      LiteralsEval(m, items.tail, data);
    }
  }

  lemma PureVarEval(m: Meaning, j: Json, data: Data)
    requires PureVar(j)
    ensures Eval(m, j, data) == Get(data, VarName(j).value)
  {
    assert Lookup(j.fields.rest, "var").None?;
  }

  /**
   What JsonLogic makes of a reference that the compiler accepts: one with more fields than
   `var` is a value, and stands for itself.
   */
  function Referent(data: Data, j: Json): Json
    requires VarName(j).Some?
  {
    if PureVar(j) then Get(data, VarName(j).value) else j
  }

  lemma ReferenceEval(m: Meaning, j: Json, data: Data)
    requires VarName(j).Some?
    ensures Eval(m, j, data) == Referent(data, j)
  {
    if PureVar(j) {
      PureVarEval(m, j, data);
    }
  }

  /** A leaf, by what it evaluates to. */
  lemma ComparisonEval(m: Meaning, rule: Json, data: Data)
    requires Read(rule).Comparison?
    ensures var n := Read(rule);
            Eval(m, rule, data) ==
            Bool(m.compare(n.op, Referent(data, rule.fields.value.items.head), Eval(m, n.right, data)))
  {
    ReferenceEval(m, rule.fields.value.items.head, data);
  }

  lemma MembershipEval(m: Meaning, rule: Json, data: Data)
    requires Read(rule).Membership?
    ensures var n := Read(rule);
            Eval(m, rule, data) ==
            Bool(m.isIn(Referent(data, rule.fields.value.items.head), EvalAll(m, n.list, data)))
  {
    ReferenceEval(m, rule.fields.value.items.head, data);
  }

  lemma TruthEval(m: Meaning, rule: Json, data: Data)
    requires Read(rule).Truth?
    ensures Eval(m, rule, data) == Bool(Truthy(Referent(data, First(rule.fields.value).value)))
  {
    ReferenceEval(m, First(rule.fields.value).value, data);
  }

  /** A plain leaf keeps its meaning. */
  lemma LeafPreserved(m: Meaning, rule: Json, data: Data)
    requires Sane(m) && Compile(rule).Ok? && PlainNode(rule) && BooleanOrNull(data, TruthDims(rule))
    requires Read(rule).Truth? || Read(rule).Comparison? || Read(rule).Membership?
    ensures Truthy(Eval(m, rule, data)) == Holds(m, Compile(rule).value, data)
  {
    match Read(rule) {
      case Truth(f) =>
        TruthEval(m, rule, data);
        assert f in TruthDims(rule);
      case Comparison(_, _, right) =>
        ComparisonEval(m, rule, data);
        LiteralEval(m, right, data);
      case Membership(_, list) =>
        MembershipEval(m, rule, data);
        LiteralsEval(m, list, data);
    }
  }

  /**
   Compilation preserves meaning: on every record, and whatever the operators make of
   values, the condition tree of a plain rule holds exactly when the rule is truthy.
   */
  lemma {:induction false} MeaningPreserved(m: Meaning, rule: Json, data: Data)
    requires Sane(m) && Compile(rule).Ok? && Plain(rule) && BooleanOrNull(data, TruthDims(rule))
    ensures Truthy(Eval(m, rule, data)) == Holds(m, Compile(rule).value, data)
    decreases rule
  {
    match Read(rule) {
      case Junction(isAnd, operands) =>
        assert Eval(m, rule, data) == EvalJunction(m, isAnd, operands, data);
        JunctionPreserved(m, isAnd, operands, data);
      case Negation(inner) =>
        MeaningPreserved(m, inner, data);
        assert Eval(m, rule, data) == Bool(!Truthy(Eval(m, inner, data)));
      case _ => LeafPreserved(m, rule, data);
    }
  }

  lemma {:induction false} JunctionPreserved(m: Meaning, isAnd: bool, operands: Items, data: Data)
    requires Sane(m) && CompileAll(operands).Ok? && AllPlain(operands) && BooleanOrNull(data, AllTruthDims(operands))
    requires isAnd ==> operands.Item?
    ensures Truthy(EvalJunction(m, isAnd, operands, data)) ==
            if isAnd then AllHold(m, CompileAll(operands).value, data)
            else AnyHolds(m, CompileAll(operands).value, data)
    decreases operands
  {
    if operands.Item? {
      MeaningPreserved(m, operands.head, data);
      if operands.tail.Item? {
        JunctionPreserved(m, isAnd, operands.tail, data);
      }
    }
  }

  // ------------------------------------------------------ where meaning is lost

  /** The whole of a value's size: evaluating on the empty record never makes a value larger. */
  function Size(j: Json): nat {
    match j
    case Arr(items) => 1 + Sizes(items)
    case Obj(fields) => 1 + FieldSizes(fields)
    case _ => 1
  }

  function Sizes(items: Items): nat {
    if items.Nil? then 0 else Size(items.head) + Sizes(items.tail)
  }

  function FieldSizes(f: Fields): nat {
    if f.Empty? then 0 else 1 + Size(f.value) + FieldSizes(f.rest)
  }

  /** An operator, on the empty record, evaluates to something smaller than itself. */
  lemma {:induction false} EvalShrinks(m: Meaning, j: Json)
    ensures Size(Eval(m, j, map[])) <= Size(j)
    ensures j.Obj? && j.fields.Field? && j.fields.rest.Empty? ==> Size(Eval(m, j, map[])) < Size(j)
    decreases j, 0
  {
    match j {
      case Arr(items) => EvalAllShrinks(m, items);
      case Obj(fields) =>
        if fields.Field? && fields.rest.Empty? {
          var operands := fields.value;
          EvalShrinks(m, operands);
          if operands.Arr? {
            JunctionShrinks(m, fields.key == "and", operands.items);
          }
        }
      case _ =>
    }
  }

  lemma {:induction false} EvalAllShrinks(m: Meaning, items: Items)
    ensures Sizes(EvalAll(m, items, map[])) <= Sizes(items)
    decreases items, 0
  {
    if items.Item? {
      EvalShrinks(m, items.head);
      EvalAllShrinks(m, items.tail);
    }
  }

  lemma {:induction false} JunctionShrinks(m: Meaning, isAnd: bool, items: Items)
    ensures Size(EvalJunction(m, isAnd, items, map[])) <= 1 + Sizes(items)
    decreases items, 0
  {
    if items.Item? {
      EvalShrinks(m, items.head);
      JunctionShrinks(m, isAnd, items.tail);
    }
  }

  /** What is not literal evaluates, on the empty record, to something smaller. */
  lemma {:induction false} NonLiteralShrinks(m: Meaning, j: Json)
    requires !Literal(j)
    ensures Size(Eval(m, j, map[])) < Size(j)
    decreases j
  {
    if j.Arr? {
      NonLiteralsShrink(m, j.items);
    } else {
      EvalShrinks(m, j);
    }
  }

  lemma {:induction false} NonLiteralsShrink(m: Meaning, items: Items)
    requires !Literals(items)
    ensures Sizes(EvalAll(m, items, map[])) < Sizes(items)
    decreases items
  {
    EvalShrinks(m, items.head);
    EvalAllShrinks(m, items.tail);
    if !Literal(items.head) {
      NonLiteralShrinks(m, items.head);
    } else {
      NonLiteralsShrink(m, items.tail);
    }
  }

  /**
   A sane meaning in which, of the comparisons left open, those with values of size n or more
   are all `big` and the rest false.
   */
  function Probe(n: nat, big: bool): Meaning {
    Meaning(
      (op: Op, x: Json, y: Json) =>
        if y.Null? && (op == Eq || op == Ne) then x.Null? == (op == Eq)
        else if y == Bool(true) && op == Eq then x == Bool(true)
        else big && Size(y) >= n,
      (x: Json, list: Items) => big && Size(Arr(list)) >= n)
  }

  lemma ProbePair(n: nat, key: string, a: Json, b: Json)
    requires Size(b) < n
    ensures EvalPair(Probe(n, true), key, a, b) == EvalPair(Probe(n, false), key, a, b)
  {
  }

  /** Such a meaning makes no difference inside a value of size n. */
  lemma {:induction false} ProbeInside(n: nat, j: Json)
    requires Size(j) <= n
    ensures Eval(Probe(n, true), j, map[]) == Eval(Probe(n, false), j, map[])
    decreases j, 1
  {
    match j {
      case Arr(items) => ProbeInsideAll(n, items);
      case Obj(fields) =>
        if fields.Field? && fields.rest.Empty? {
          ProbeInside(n, fields.value);
          if fields.value.Arr? {
            ProbeInsideJunction(n, fields.key == "and", fields.value.items);
            if fields.value.items.Item? {
              ProbeInside(n, fields.value.items.head);
            }
            if Two(fields.value) {
              ProbeInsidePair(n, fields.key, fields.value.items.head, fields.value.items.tail.head);
            }
          }
        }
      case _ =>
    }
  }

  lemma {:induction false} ProbeInsidePair(n: nat, key: string, a: Json, b: Json)
    requires Size(a) + Size(b) < n
    ensures EvalPair(Probe(n, true), key, Eval(Probe(n, true), a, map[]), Eval(Probe(n, true), b, map[])) ==
            EvalPair(Probe(n, false), key, Eval(Probe(n, false), a, map[]), Eval(Probe(n, false), b, map[]))
    decreases Items.Item(a, Items.Item(b, Items.Nil)), 0
  {
    ProbeInside(n, a);
    ProbeInside(n, b);
    EvalShrinks(Probe(n, true), b);
    ProbePair(n, key, Eval(Probe(n, true), a, map[]), Eval(Probe(n, true), b, map[]));
  }

  lemma {:induction false} ProbeInsideAll(n: nat, items: Items)
    requires Sizes(items) <= n
    ensures EvalAll(Probe(n, true), items, map[]) == EvalAll(Probe(n, false), items, map[])
    decreases items, 0
  {
    if items.Item? {
      ProbeInside(n, items.head);
      ProbeInsideAll(n, items.tail);
    }
  }

  lemma {:induction false} ProbeInsideJunction(n: nat, isAnd: bool, items: Items)
    requires Sizes(items) <= n
    ensures EvalJunction(Probe(n, true), isAnd, items, map[]) == EvalJunction(Probe(n, false), isAnd, items, map[])
    decreases items, 0
  {
    if items.Item? {
      ProbeInside(n, items.head);
      ProbeInsideJunction(n, isAnd, items.tail);
    }
  }

  /** The tree of a rule agrees with the rule for every sane meaning and every record. */
  ghost predicate Preserved(rule: Json)
    requires Compile(rule).Ok?
  {
    forall m: Meaning, data: Data | Sane(m) :: Agree(m, rule, data)
  }

  ghost predicate Agree(m: Meaning, rule: Json, data: Data)
    requires Compile(rule).Ok?
  {
    Truthy(Eval(m, rule, data)) == Holds(m, Compile(rule).value, data)
  }

  /** A sane meaning in which everything left open holds of objects alone, or of all values, or of none. */
  function Biased(holds: Json -> bool): Meaning {
    Meaning(
      (op: Op, x: Json, y: Json) =>
        if y.Null? && (op == Eq || op == Ne) then x.Null? == (op == Eq)
        else if y == Bool(true) && op == Eq && (x.Bool? || x.Null?) then x == Bool(true)
        else holds(x),
      (x: Json, list: Items) => holds(x))
  }

  lemma BiasedSane(holds: Json -> bool)
    ensures Sane(Biased(holds))
  {
  }

  /** A reference with more fields than `var` never keeps its meaning as the left operand of a comparison. */
  lemma ImpureComparisonLost(rule: Json)
    requires Compile(rule).Ok? && Read(rule).Comparison?
    requires !PureVar(rule.fields.value.items.head) && Literal(Read(rule).right) && !Read(rule).right.Null?
    ensures !Preserved(rule)
  {
    var n := Read(rule);
    var m := Biased((x: Json) => x.Obj?);
    var data: Data := if n.right == Bool(true) && n.op == Eq then map[n.field := Bool(true)] else map[];
    BiasedSane((x: Json) => x.Obj?);
    LiteralEval(m, n.right, data);
    ComparisonEval(m, rule, data);
    if n.right == Bool(true) && n.op == Eq {
      var m' := Biased((x: Json) => false);
      BiasedSane((x: Json) => false);
      ComparisonEval(m', rule, data);
      assert !Agree(m', rule, data);
    } else {
      assert !Agree(m, rule, data);
    }
  }

  /** With null on the right, only the equalities of a pure reference keep their meaning. */
  lemma NullComparisonLost(rule: Json)
    requires Compile(rule).Ok? && Read(rule).Comparison? && Read(rule).right.Null?
    requires !PureVar(rule.fields.value.items.head) || !NullOnlyForEquality(Read(rule).op, Null)
    ensures !Preserved(rule)
  {
    var m := Probe(2, false);
    ComparisonEval(m, rule, map[]);
    assert Sane(m) && !Agree(m, rule, map[]);
  }

  lemma NonLiteralComparisonLost(rule: Json)
    requires Compile(rule).Ok? && Read(rule).Comparison? && !Literal(Read(rule).right)
    ensures !Preserved(rule)
  {
    var n := Read(rule);
    var size := Size(n.right);
    ProbeInside(size, n.right);
    NonLiteralShrinks(Probe(size, true), n.right);
    ComparisonEval(Probe(size, true), rule, map[]);
    ComparisonEval(Probe(size, false), rule, map[]);
    assert Sane(Probe(size, true)) && Sane(Probe(size, false));
    assert !Agree(Probe(size, true), rule, map[]) || !Agree(Probe(size, false), rule, map[]);
  }

  /**
   A comparison keeps its meaning exactly when its reference has no field but `var`, and the
   right operand is literal, and null only for an equality.
   */
  lemma ComparisonPreservedIff(rule: Json)
    requires Compile(rule).Ok? && Read(rule).Comparison?
    ensures Preserved(rule) <==>
            && PureVar(rule.fields.value.items.head)
            && Literal(Read(rule).right) && NullOnlyForEquality(Read(rule).op, Read(rule).right)
  {
    var n := Read(rule);
    if !Literal(n.right) {
      NonLiteralComparisonLost(rule);
    } else if PureVar(rule.fields.value.items.head) && NullOnlyForEquality(n.op, n.right) {
      forall m: Meaning, data: Data | Sane(m) ensures Agree(m, rule, data) {
        LeafPreserved(m, rule, data);
      }
    } else if n.right.Null? {
      NullComparisonLost(rule);
    } else {
      ImpureComparisonLost(rule);
    }
  }

  /** Membership keeps its meaning exactly when its reference has no field but `var` and the list is literal. */
  lemma MembershipPreservedIff(rule: Json)
    requires Compile(rule).Ok? && Read(rule).Membership?
    ensures Preserved(rule) <==> PureVar(rule.fields.value.items.head) && Literals(Read(rule).list)
  {
    var n := Read(rule);
    if !Literals(n.list) {
      var m := Probe(Size(Arr(n.list)), true);
      NonLiteralsShrink(m, n.list);
      MembershipEval(m, rule, map[]);
      assert Sane(m) && !Agree(m, rule, map[]);
    } else if PureVar(rule.fields.value.items.head) {
      forall m: Meaning, data: Data | Sane(m) ensures Agree(m, rule, data) {
        LeafPreserved(m, rule, data);
      }
    } else {
      var m := Biased((x: Json) => x.Obj?);
      BiasedSane((x: Json) => x.Obj?);
      MembershipEval(m, rule, map[]);
      assert !Agree(m, rule, map[]);
    }
  }

  /**
   `!!` means what its tree means on a record, however values are compared, exactly when the
   dimension is a boolean or null there; and when the reference has other fields than
   `var`, exactly when it is true.
   */
  lemma TruthAgreesIff(rule: Json, data: Data)
    requires Compile(rule).Ok? && Read(rule).Truth?
    ensures var value := Get(data, Read(rule).field);
            (forall m | Sane(m) :: Agree(m, rule, data)) <==>
            if PureVar(First(rule.fields.value).value) then value.Bool? || value.Null? else value == Bool(true)
  {
    var inner, value := First(rule.fields.value).value, Get(data, Read(rule).field);
    forall m | Sane(m)
      ensures Agree(m, rule, data) <==> Truthy(Referent(data, inner)) == m.compare(Eq, value, Bool(true))
    {
      TruthEval(m, rule, data);
    }
    var yes, no := (x: Json) => true, (x: Json) => false;
    BiasedSane(yes);
    BiasedSane(no);
    if !value.Bool? && !value.Null? {
      assert Biased(yes).compare(Eq, value, Bool(true)) && !Biased(no).compare(Eq, value, Bool(true));
      assert !Agree(Biased(yes), rule, data) || !Agree(Biased(no), rule, data);
    } else {
      assert Agree(Biased(no), rule, data) <==> Truthy(Referent(data, inner)) == (value == Bool(true));
    }
  }

  /** An empty `and` never keeps its meaning: the rule is falsy and the tree holds. */
  lemma EmptyAndNeverAgrees(m: Meaning, rule: Json, data: Data)
    requires Read(rule) == Junction(true, Nil)
    ensures Compile(rule).Ok? && !Agree(m, rule, data)
  {
    assert CompileAll(Nil) == Ok(NoCond);
    assert Compile(rule) == Ok(And(NoCond)) && AllHold(m, NoCond, data);
    assert Eval(m, rule, data) == EvalJunction(m, true, Nil, data);
  }

  // ---------------------------------------------------------- three-valued logic

  datatype Tri = True | False | Unknown

  function Tri2(b: bool): Tri {
    if b then True else False
  }

  predicate HasNull(list: Items) {
    list.Item? && (list.head.Null? || HasNull(list.tail))
  }

  /** What SQL makes of the tree: a comparison with a null column is neither true nor false. */
  function Sql(m: Meaning, c: Cond, data: Data): Tri {
    match c
    case Compare(op, field, value) =>
      if Get(data, field).Null? then Unknown else Tri2(m.compare(op, Get(data, field), value))
    case Within(field, list) =>
      if Get(data, field).Null? then Unknown
      else if m.isIn(Get(data, field), list) then True
      else if HasNull(list) then Unknown else False
    case Exists(field, present) => Tri2(Get(data, field).Null? != present)
    case And(children) => SqlAll(m, children, data)
    case Or(children) => SqlAny(m, children, data)
    case Not(child) =>
      match Sql(m, child, data) {
        case True => False
        case False => True
        case Unknown => Unknown
      }
  }

  function SqlAll(m: Meaning, cs: Conds, data: Data): Tri {
    if cs.NoCond? then True
    else
      var a, b := Sql(m, cs.head, data), SqlAll(m, cs.tail, data);
      if a == False || b == False then False else if a == True && b == True then True else Unknown
  }

  function SqlAny(m: Meaning, cs: Conds, data: Data): Tri {
    if cs.NoCond? then False
    else
      var a, b := Sql(m, cs.head, data), SqlAny(m, cs.tail, data);
      if a == True || b == True then True else if a == False && b == False then False else Unknown
  }

  /** Every dimension that is compared, and not only tested for null, has a value. */
  predicate Known(c: Cond, data: Data) {
    match c
    case Compare(_, field, _) => !Get(data, field).Null?
    case Within(field, list) => !Get(data, field).Null? && !HasNull(list)
    case Exists(_, _) => true
    case And(children) => AllKnown(children, data)
    case Or(children) => AllKnown(children, data)
    case Not(child) => Known(child, data)
  }

  predicate AllKnown(cs: Conds, data: Data) {
    cs.Conds? ==> Known(cs.head, data) && AllKnown(cs.tail, data)
  }

  lemma {:induction false} SqlOfKnown(m: Meaning, c: Cond, data: Data)
    requires Known(c, data)
    ensures Sql(m, c, data) == Tri2(Holds(m, c, data))
  {
    match c {
      case And(children) => SqlOfAllKnown(m, children, data);
      case Or(children) => SqlOfAllKnown(m, children, data);
      case Not(child) => SqlOfKnown(m, child, data);
      case _ =>
    }
  }

  lemma {:induction false} SqlOfAllKnown(m: Meaning, cs: Conds, data: Data)
    requires AllKnown(cs, data)
    ensures SqlAll(m, cs, data) == Tri2(AllHold(m, cs, data)) && SqlAny(m, cs, data) == Tri2(AnyHolds(m, cs, data))
  {
    if cs.Conds? {
      SqlOfKnown(m, cs.head, data);
      SqlOfAllKnown(m, cs.tail, data);
    }
  }

  /**
   From JsonLogic to SQL: where the compared dimensions are known, SQL selects exactly the
   records for which the rule is truthy.
   */
  lemma SqlPreserved(m: Meaning, rule: Json, data: Data)
    requires Sane(m) && Compile(rule).Ok? && Plain(rule) && BooleanOrNull(data, TruthDims(rule))
    requires Known(Compile(rule).value, data)
    ensures Sql(m, Compile(rule).value, data) == Tri2(Truthy(Eval(m, rule, data)))
  {
    MeaningPreserved(m, rule, data);
    SqlOfKnown(m, Compile(rule).value, data);
  }

  lemma {:induction false} HasNullIff(list: Items)
    ensures HasNull(list) ==> exists i: nat :: Nth(list, i) == Some(Null)
    ensures forall i: nat | Nth(list, i) == Some(Null) :: HasNull(list)
  {
    if list.Item? {
      HasNullIff(list.tail);
      assert Nth(list, 0) == Some(list.head);
      if HasNull(list) && !list.head.Null? {
        var i: nat :| Nth(list.tail, i) == Some(Null);
        assert Nth(list, i + 1) == Some(Null);
      }
    }
  }

  /** In SQL a comparison or membership of a null column is unknown, and otherwise what it is in the tree. */
  lemma SqlLeaf(m: Meaning, data: Data, f: string, op: Op, value: Json, list: Items)
    ensures f !in data || data[f] == Null ==>
              Sql(m, Compare(op, f, value), data) == Sql(m, Within(f, list), data) == Unknown
    ensures f in data && data[f] != Null ==>
              && Sql(m, Compare(op, f, value), data) == (if m.compare(op, data[f], value) then True else False)
              && (Sql(m, Within(f, list), data) == True <==> m.isIn(data[f], list))
              && (Sql(m, Within(f, list), data) == False <==> !m.isIn(data[f], list) && !HasNull(list))
    ensures Sql(m, Exists(f, true), data) == (if f in data && data[f] != Null then True else False)
    ensures Sql(m, Exists(f, false), data) == (if f in data && data[f] != Null then False else True)
  {
  }

  /** Its connectives are Kleene's. */
  lemma SqlNot(m: Meaning, data: Data, a: Cond)
    ensures Sql(m, Not(a), data) == True <==> Sql(m, a, data) == False
    ensures Sql(m, Not(a), data) == False <==> Sql(m, a, data) == True
  {
  }

  lemma SqlConnectives(m: Meaning, data: Data, a: Cond, b: Cond)
    ensures var and := Sql(m, And(Conds(a, Conds(b, NoCond))), data);
            && (and == True <==> Sql(m, a, data) == True && Sql(m, b, data) == True)
            && (and == False <==> Sql(m, a, data) == False || Sql(m, b, data) == False)
    ensures var or := Sql(m, Or(Conds(a, Conds(b, NoCond))), data);
            && (or == True <==> Sql(m, a, data) == True || Sql(m, b, data) == True)
            && (or == False <==> Sql(m, a, data) == False && Sql(m, b, data) == False)
  {
    var last := Conds(b, NoCond);
    assert SqlAll(m, NoCond, data) == True && SqlAny(m, NoCond, data) == False;
    assert SqlAll(m, last, data) == Sql(m, b, data);
    assert SqlAny(m, last, data) == Sql(m, b, data);
    assert Sql(m, And(Conds(a, last)), data) == SqlAll(m, Conds(a, last), data);
    assert Sql(m, Or(Conds(a, last)), data) == SqlAny(m, Conds(a, last), data);
  }

  /** A comparison has its two-valued meaning in SQL exactly when the dimension is not null. */
  lemma SqlCompareIff(m: Meaning, op: Op, field: string, value: Json, data: Data)
    ensures Sql(m, Compare(op, field, value), data) == Tri2(Holds(m, Compare(op, field, value), data)) <==>
            !Get(data, field).Null?
  {
  }

  /** So a negated equality on a null dimension is truthy in JsonLogic and selects nothing in SQL. */
  lemma NegationOfNullSelectsNothing(m: Meaning, rule: Json, data: Data)
    requires Sane(m) && Compile(rule).Ok? && Plain(rule) && Read(rule).Negation?
    requires var n := Read(Read(rule).inner);
             n.Comparison? && !n.right.Null? && Get(data, n.field).Null? && !m.compare(n.op, Null, n.right)
    ensures Truthy(Eval(m, rule, data)) && Sql(m, Compile(rule).value, data) == Unknown
  {
    MeaningPreserved(m, rule, data);
  }
}
