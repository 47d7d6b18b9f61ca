/** scripts/annotate_local_vars.py: that the inference gives no less than it could. Literals get the type of their
    value, and a container the type of its elements whenever they have one. */
module TypePrecision {
  import opened Prelude
  import opened TypeInference

  // ------------------------------------------------------------------ literals

  /** The type of a value, by its class and, for a list or tuple, by those of its elements. */
  function TypeOf(v: Val): Option<Ty> {
    match v
    case VNone => Some(TNone)
    case VBool(_) => Some(TBool)
    case VInt(_) => Some(TInt)
    case VFloat(_) => Some(TFloat)
    case VStr(_) => Some(TStr)
    case VBytes => Some(TBytes)
    case VList(items) =>
      if items != [] && forall i | 0 <= i < |items| :: TypeOf(items[i]) == TypeOf(items[0])
      then Some(TList(TypeOf(items[0]))) else Some(TList(None))
    case VTuple(items) =>
      if forall i | 0 <= i < |items| :: TypeOf(items[i]).Some?
      then Some(TTuple(seq(|items|, i requires 0 <= i < |items| =>
                  if TypeOf(items[i]).Some? then TypeOf(items[i]).value else TNone)))
      else Some(TTupleAny)
    case _ => None
  }

  /** Constants, and lists and tuples of literals. */
  predicate Literal(e: Expr) {
    match e
    case Constant(_) => true
    case ListDisplay(elts) => forall i | 0 <= i < |elts| :: Literal(elts[i])
    case TupleDisplay(elts) => forall i | 0 <= i < |elts| :: Literal(elts[i])
    case _ => false
  }

  /** A literal is annotated with the type of its value, at every depth. */
  lemma {:induction false} LiteralGetsItsType(e: Expr, v: Val)
    requires Literal(e) && MayEval(e, v)
    ensures Infer(e) == TypeOf(v)
  {
    match e
    case Constant(_) =>
    case ListDisplay(elts) =>
      ElementTypes(elts, v.items);
      CommonOf(elts, v.items);
    case TupleDisplay(elts) =>
      ElementTypes(elts, v.items);
      PartsOf(elts, v.items);
  }

  lemma CommonOf(elts: seq<Expr>, items: seq<Val>)
    requires |items| == |elts| && forall i | 0 <= i < |elts| :: Infer(elts[i]) == TypeOf(items[i])
    ensures TypeOf(VList(items)) == Some(TList(Common(InferAll(elts))))
  {
    var types := InferAll(elts);
    assert forall i | 0 <= i < |items| :: types[i] == TypeOf(items[i]);
    if items != [] && forall i | 0 <= i < |items| :: TypeOf(items[i]) == TypeOf(items[0]) {
      assert forall i | 0 <= i < |types| :: types[i] == types[0];
    } else if items != [] {
      var i :| 0 <= i < |items| && TypeOf(items[i]) != TypeOf(items[0]);
      assert types[i] != types[0];
    }
  }

  lemma PartsOf(elts: seq<Expr>, items: seq<Val>)
    requires |items| == |elts| && forall i | 0 <= i < |elts| :: Infer(elts[i]) == TypeOf(items[i])
    ensures TypeOf(VTuple(items)) == Infer(TupleDisplay(elts))
  {
    var types := InferAll(elts);
    assert forall i | 0 <= i < |items| :: types[i] == TypeOf(items[i]);
    var t := Infer(TupleDisplay(elts)).value;
    if forall i | 0 <= i < |items| :: TypeOf(items[i]).Some? {
      assert forall i | 0 <= i < |types| :: types[i].Some?;
      assert t.TTuple? && t.parts == TypeOf(VTuple(items)).value.parts;
    } else {
      var i :| 0 <= i < |items| && TypeOf(items[i]).None?;
      assert types[i].None?;
    }
  }

  lemma {:induction false} ElementTypes(elts: seq<Expr>, items: seq<Val>)
    requires (forall i | 0 <= i < |elts| :: Literal(elts[i])) && Displays(elts, items)
    ensures |items| == |elts| && forall i | 0 <= i < |elts| :: Infer(elts[i]) == TypeOf(items[i])
  {
    forall i | 0 <= i < |elts| ensures Infer(elts[i]) == TypeOf(items[i]) {
      assert Literal(elts[i]) && !elts[i].Starred?;
      LiteralGetsItsType(elts[i], items[i]);
    }
  }

  // ------------------------------------------------------------------ containers

  /** A list or set display is annotated with an element type exactly if it has elements and they all have that
      type; a tuple with the types of its elements exactly if each has one. */
  lemma DisplaysAreTyped(elts: seq<Expr>, t: Ty, parts: seq<Ty>)
    ensures Infer(ListDisplay(elts)) == Some(TList(Some(t))) <==>
            elts != [] && forall i | 0 <= i < |elts| :: Infer(elts[i]) == Some(t)
    ensures Infer(SetDisplay(elts)) == Some(TSet(Some(t))) <==>
            elts != [] && forall i | 0 <= i < |elts| :: Infer(elts[i]) == Some(t)
    ensures Infer(TupleDisplay(elts)) == Some(TTuple(parts)) <==>
            |parts| == |elts| && forall i | 0 <= i < |elts| :: Infer(elts[i]) == Some(parts[i])
    ensures Infer(ListDisplay(elts)).Some? && Infer(SetDisplay(elts)).Some? && Infer(TupleDisplay(elts)).Some?
  {
    ElementIsCommon(elts, t);
    TupleOfParts(elts, parts);
  }

  lemma ElementIsCommon(elts: seq<Expr>, t: Ty)
    ensures Common(InferAll(elts)) == Some(t) <==>
            elts != [] && forall i | 0 <= i < |elts| :: Infer(elts[i]) == Some(t)
  {
    var types := InferAll(elts);
    assert |types| == |elts| && forall i | 0 <= i < |elts| :: types[i] == Infer(elts[i]);
    if elts != [] {
      assert types[0] == Infer(elts[0]);
    }
  }

  lemma TupleOfParts(elts: seq<Expr>, parts: seq<Ty>)
    ensures Infer(TupleDisplay(elts)) == Some(TTuple(parts)) <==>
            |parts| == |elts| && forall i | 0 <= i < |elts| :: Infer(elts[i]) == Some(parts[i])
  {
    var types := InferAll(elts);
    assert |types| == |elts| && forall i | 0 <= i < |elts| :: types[i] == Infer(elts[i]);
    var t := Infer(TupleDisplay(elts));
    if t.Some? && t.value.TTuple? {
      assert |t.value.parts| == |elts|;
      assert forall i | 0 <= i < |elts| :: types[i] == Some(t.value.parts[i]);
    }
    if |parts| == |elts| && forall i | 0 <= i < |elts| :: Infer(elts[i]) == Some(parts[i]) {
      assert t.Some? && t.value.TTuple? && t.value.parts == parts;
    }
  }

  /** A dict display is annotated with str keys exactly if it is empty, or has pairs and every key in them is a str. */
  lemma DictIsTyped(items: seq<Item>)
    ensures Infer(DictDisplay(items)) == Some(TDict(true)) <==>
            || items == []
            || ((exists i | 0 <= i < |items| :: items[i].Pair?) &&
                forall i | 0 <= i < |items| && items[i].Pair? :: Infer(items[i].key) == Some(TStr))
  {
    if forall i | 0 <= i < |items| && items[i].Pair? :: Infer(items[i].key) == Some(TStr) {
      assert forall i | 0 <= i < |items| :: HasStrKey(items[i]);
    } else {
      var i :| 0 <= i < |items| && items[i].Pair? && Infer(items[i].key) != Some(TStr);
      assert !HasStrKey(items[i]);
    }
  }

  // ------------------------------------------------------------------ the rest

  /** A conditional is annotated with just the alternatives of its branches. */
  lemma ConditionalIsItsBranches(test: Expr, body: Expr, orelse: Expr)
    ensures var a, b, t := Infer(body), Infer(orelse), Infer(IfExp(test, body, orelse));
      && (t.Some? <==> a.Some? && b.Some?)
      && (t.Some? ==>
            forall x :: x in Alternatives(t.value) <==> x in Alternatives(a.value) || x in Alternatives(b.value))
  {
  }

  /** Nothing is inferred for exactly these. */
  predicate Untyped(e: Expr) {
    match e
    case Constant(lit) => lit.LOther?
    case Starred(_) => true
    case Signed(_, operand) => Untyped(operand)
    case IfExp(_, body, orelse) => Untyped(body) || Untyped(orelse)
    case BinOp(op, left, right) => !Gives(op, left, right, TStr) && !Gives(op, left, right, TInt)
    case Opaque(_) => true
    case _ => false
  }

  /** Two strs are added, or two ints combined by an operator that makes an int of them. */
  predicate Gives(op: Op, left: Expr, right: Expr, t: Ty) {
    && Infer(left) == Infer(right) == Some(t)
    && ((t == TStr && op == Add) ||
        (t == TInt && op in {Add, Sub, Mult, FloorDiv, Mod, BitOr, BitAnd, BitXor}))
  }

  lemma {:induction false} UntypedIff(e: Expr)
    ensures Infer(e).None? <==> Untyped(e)
    ensures e.BinOp? ==> forall t :: Infer(e) == Some(t) <==> Gives(e.op, e.left, e.right, t)
  {
    match e
    case Signed(_, operand) => UntypedIff(operand);
    case IfExp(_, body, orelse) =>
      UntypedIff(body);
      UntypedIff(orelse);
    case _ =>
  }

  // ------------------------------------------------------------------ how far soundness reaches

  /** No sign, no ** and no comparison but is, in, their negations and those of two literals. */
  predicate Ordinary(e: Expr)
    decreases e, 0
  {
    match e
    case ListDisplay(elts) => forall i | 0 <= i < |elts| :: Ordinary(elts[i])
    case SetDisplay(elts) => forall i | 0 <= i < |elts| :: Ordinary(elts[i])
    case DictDisplay(items) => forall i | 0 <= i < |items| :: OrdinaryItem(items[i])
    case TupleDisplay(elts) => forall i | 0 <= i < |elts| :: Ordinary(elts[i])
    case Signed(_, _) => false
    case Compare(links) => forall i | 0 <= i < |links| :: OrdinaryLink(links[i])
    case IfExp(_, body, orelse) => Ordinary(body) && Ordinary(orelse)
    case ListComp(elt) => Ordinary(elt)
    case SetComp(elt) => Ordinary(elt)
    case BinOp(_, left, right) => Ordinary(left) && Ordinary(right)
    case _ => true
  }

  predicate OrdinaryItem(item: Item)
    decreases item, 0
  {
    item.Pair? && Ordinary(item.key)
  }

  predicate OrdinaryLink(link: Link)
    decreases link, 0
  {
    link.op in {Identity, Membership} || (Literal(link.left) && Literal(link.right))
  }

  lemma {:induction false} LiteralIsPlain(e: Expr)
    requires Literal(e)
    ensures Safe(e) && Plain(e) && TopPlain(e)
  {
    match e
    case ListDisplay(elts) =>
      forall i | 0 <= i < |elts| ensures Safe(elts[i]) && Plain(elts[i]) {
        LiteralIsPlain(elts[i]);
      }
    case TupleDisplay(elts) =>
      forall i | 0 <= i < |elts| ensures Safe(elts[i]) && Plain(elts[i]) {
        LiteralIsPlain(elts[i]);
      }
    case _ =>
  }

  /** Whatever names, calls and operators it holds, such an expression is safe, so what is inferred for it is right. */
  lemma {:induction false} OrdinaryIsSafe(e: Expr)
    requires Ordinary(e)
    ensures Safe(e)
  {
    match e
    case ListDisplay(elts) => AllOrdinary(elts);
    case SetDisplay(elts) => AllOrdinary(elts);
    case TupleDisplay(elts) => AllOrdinary(elts);
    case DictDisplay(items) =>
      forall i | 0 <= i < |items| && OnlyStrKeys(items) ensures StrItem(items[i]) {
        assert OrdinaryItem(items[i]) && HasStrKey(items[i]);
        OrdinaryIsSafe(items[i].key);
      }
    case Compare(links) =>
      forall i | 0 <= i < |links| ensures SafeLink(links[i]) {
        assert OrdinaryLink(links[i]);
        if Literal(links[i].left) && Literal(links[i].right) {
          LiteralIsPlain(links[i].left);
          LiteralIsPlain(links[i].right);
        }
      }
    case IfExp(_, body, orelse) =>
      OrdinaryIsSafe(body);
      OrdinaryIsSafe(orelse);
    case ListComp(elt) => OrdinaryIsSafe(elt);
    case SetComp(elt) => OrdinaryIsSafe(elt);
    case BinOp(_, left, right) =>
      OrdinaryIsSafe(left);
      OrdinaryIsSafe(right);
    case _ =>
  }

  lemma {:induction false} AllOrdinary(elts: seq<Expr>)
    requires forall i | 0 <= i < |elts| :: Ordinary(elts[i])
    ensures forall i | 0 <= i < |elts| :: Safe(elts[i])
  {
    forall i | 0 <= i < |elts| ensures Safe(elts[i]) {
      OrdinaryIsSafe(elts[i]);
    }
  }
}
