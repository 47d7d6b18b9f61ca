/** scripts/annotate_local_vars.py: what the exclusions of the soundness theorem cost. For a sign, a dict display
    and a comparison, the inference is sound exactly where they leave it. */
module TypeExactness {
  import opened Prelude
  import opened TypeInference

  // ------------------------------------------------------------------ expressions that surely have a value

  predicate NonZero(e: Expr) {
    e.Opaque? || (e.Constant? && e.lit.LInt? && e.lit.i != 0)
  }

  /** Among the values is an int or a bool: none of its operators can fail on every choice of the names. */
  predicate CanBeInt(e: Expr) {
    match e
    case Constant(lit) => lit.LBool? || lit.LInt?
    case Not(_) => true
    case Signed(_, operand) => CanBeInt(operand)
    case Compare(_) => true
    case IfExp(_, body, orelse) => CanBeInt(body) || CanBeInt(orelse)
    case BinOp(op, left, right) =>
      CanBeInt(left) && CanBeInt(right) && IntOp(op) && (op == FloorDiv || op == Mod ==> NonZero(right))
    case Opaque(_) => true
    case _ => false
  }

  predicate CanBeStr(e: Expr) {
    match e
    case Constant(lit) => lit.LStr?
    case JoinedStr => true
    case IfExp(_, body, orelse) => CanBeStr(body) || CanBeStr(orelse)
    case BinOp(op, left, right) => op == Add && CanBeStr(left) && CanBeStr(right)
    case Opaque(_) => true
    case _ => false
  }

  /** Among the values is one that can be a key or a set's element. */
  predicate Hashable(e: Expr) {
    match e
    case Constant(_) => true
    case TupleDisplay(elts) => forall i | 0 <= i < |elts| :: Hashable(elts[i])
    case _ => CanBeInt(e) || CanBeStr(e)
  }

  predicate HasValue(e: Expr) {
    match e
    case ListDisplay(elts) => forall i | 0 <= i < |elts| :: HasValue(elts[i])
    case SetDisplay(elts) => forall i | 0 <= i < |elts| :: Hashable(elts[i])
    case DictDisplay(items) => forall i | 0 <= i < |items| :: ItemHasValue(items[i])
    case TupleDisplay(elts) => forall i | 0 <= i < |elts| :: HasValue(elts[i])
    case Starred(operand) => operand.Opaque?
    case Not(operand) => HasValue(operand)
    case Signed(_, _) => CanBeInt(e)
    case Compare(links) => forall i | 0 <= i < |links| :: LinkHasValues(links[i])
    case IfExp(_, body, orelse) => HasValue(body) || HasValue(orelse)
    case BinOp(_, _, _) => CanBeInt(e) || CanBeStr(e)
    case _ => true
  }

  predicate LinkHasValues(link: Link) {
    HasValue(link.left) && HasValue(link.right)
  }

  predicate ItemHasValue(item: Item) {
    match item
    case Pair(key, value) => Hashable(key) && HasValue(value)
    case Unpack(mapping) => HasValue(mapping)
  }

  lemma {:induction false} IntValue(e: Expr) returns (v: Val)
    requires CanBeInt(e)
    ensures IntLike(v) && MayEval(e, v) && (NonZero(e) ==> AsInt(v) != 0)
  {
    match e
    case Constant(lit) => v := LitValue(lit);
    case Signed(sign, operand) =>
      var u := IntValue(operand);
      v := VInt(if sign == USub then -AsInt(u) else AsInt(u));
      assert MayEval(operand, u) && SignedTo(sign, u, v);
    case IfExp(_, body, orelse) =>
      if CanBeInt(body) {
        v := IntValue(body);
      } else {
        v := IntValue(orelse);
      }
    case BinOp(op, left, right) =>
      var a := IntValue(left);
      var b := IntValue(right);
      v := CombinedInt(op, a, b);
      assert MayEval(left, a) && MayEval(right, b) && CombinesTo(op, a, b, v);
    case Opaque(_) => v := VInt(1);
    case _ => v := VBool(true);
  }

  lemma CombinedInt(op: Op, a: Val, b: Val) returns (v: Val)
    requires IntLike(a) && IntLike(b) && IntOp(op) && (op == FloorDiv || op == Mod ==> AsInt(b) != 0)
    ensures IntLike(v) && CombinesTo(op, a, b, v)
  {
    match op
    case Add => v := VInt(AsInt(a) + AsInt(b));
    case Sub => v := VInt(AsInt(a) - AsInt(b));
    case Mult => v := VInt(AsInt(a) * AsInt(b));
    case FloorDiv => v := VInt(FloorQuotient(AsInt(a), AsInt(b)));
    case Mod => v := VInt(AsInt(a) - AsInt(b) * FloorQuotient(AsInt(a), AsInt(b)));
    case _ => v := if a.VBool? && b.VBool? then VBool(true) else VInt(0);
  }

  lemma {:induction false} StrValue(e: Expr) returns (v: Val)
    requires CanBeStr(e)
    ensures v.VStr? && MayEval(e, v)
  {
    match e
    case Constant(lit) => v := LitValue(lit);
    case IfExp(_, body, orelse) =>
      if CanBeStr(body) {
        v := StrValue(body);
      } else {
        v := StrValue(orelse);
      }
    case BinOp(op, left, right) =>
      var a := StrValue(left);
      var b := StrValue(right);
      v := VStr(a.s + b.s);
      assert MayEval(left, a) && MayEval(right, b) && CombinesTo(op, a, b, v);
    case _ => v := VStr("");
  }

  lemma {:induction false} SomeValue(e: Expr) returns (v: Val)
    requires HasValue(e)
    ensures MayEval(e, v)
  {
    match e
    case Constant(lit) => v := LitValue(lit);
    case JoinedStr => v := VStr("");
    case ListDisplay(elts) =>
      var vs := SomeValues(elts);
      v := VList(vs);
    case SetDisplay(_) => v := VSet([]);
    case DictDisplay(_) => v := VDict([]);
    case TupleDisplay(elts) =>
      var vs := SomeValues(elts);
      v := VTuple(vs);
    case Signed(_, _) => v := IntValue(e);
    case IfExp(_, body, orelse) =>
      if HasValue(body) {
        v := SomeValue(body);
      } else {
        v := SomeValue(orelse);
      }
    case ListComp(_) => v := VList([]);
    case SetComp(_) => v := VSet([]);
    case DictComp(_) => v := VDict([]);
    case BinOp(_, _, _) =>
      if CanBeInt(e) {
        v := IntValue(e);
      } else {
        v := StrValue(e);
      }
    case Opaque(_) => v := VNone;
    case _ => v := VBool(true);
  }

  lemma {:induction false} SomeValues(elts: seq<Expr>) returns (vs: seq<Val>)
    requires forall i | 0 <= i < |elts| :: HasValue(elts[i])
    ensures |vs| == |elts| && forall i | 0 <= i < |elts| :: MayEval(elts[i], vs[i])
  {
    if elts == [] {
      vs := [];
    } else {
      var n := |elts| - 1;
      vs := SomeValues(elts[..n]);
      var v := SomeValue(elts[n]);
      assert forall i | 0 <= i < n :: elts[..n][i] == elts[i];
      vs := vs + [v];
    }
  }

  // ------------------------------------------------------------------ signs

  /** Whatever is inferred as bool can be a bool, or an int (a signed bool). */
  lemma {:induction false} BoolIsPossible(e: Expr) returns (v: Val)
    requires Infer(e).Some? && TBool in Alternatives(Infer(e).value)
    ensures IntLike(v) && MayEval(e, v)
  {
    match e
    case Constant(lit) => v := LitValue(lit);
    case Signed(sign, operand) =>
      var u := BoolIsPossible(operand);
      v := VInt(if sign == USub then -AsInt(u) else AsInt(u));
      assert MayEval(operand, u) && SignedTo(sign, u, v);
    case IfExp(_, body, orelse) =>
      if TBool in Alternatives(Infer(body).value) {
        v := BoolIsPossible(body);
      } else {
        v := BoolIsPossible(orelse);
      }
    case _ => v := VBool(true);
  }

  /** A sign before a sound operand is sound exactly if what is inferred for it has int beside any bool: the
      guard a caller can read off the annotation, since -True is -1. */
  lemma SignSoundIff(sign: Sign, operand: Expr)
    requires Sound(operand) && Infer(operand).Some?
    ensures Sound(Signed(sign, operand)) <==> SignKeepsType(Infer(operand))
  {
    var t := Infer(operand).value;
    var signed := Signed(sign, operand);
    if SignKeepsType(Some(t)) {
      forall v | MayEval(signed, v) ensures HasType(v, t) {
        var u :| MayEval(operand, u) && SignedTo(sign, u, v);
        if u.VBool? {
          BoolAlternative(u, t);
        }
        SignKeeps(sign, u, v, t);
      }
    } else {
      var u := BoolIsPossible(operand);
      var v := VInt(if sign == USub then -AsInt(u) else AsInt(u));
      assert SignedTo(sign, u, v) && MayEval(signed, v);
      NoIntWithoutInt(v, t);
      assert Infer(signed) == Some(t);
    }
  }

  lemma NoIntWithoutInt(v: Val, t: Ty)
    requires Flat(t) && v.VInt? && TInt !in Alternatives(t)
    ensures !HasType(v, t)
  {
    if HasType(v, t) {
      IntAlternative(v.i, t);
    }
  }

  // ------------------------------------------------------------------ dict displays

  /** Among the values is one that is no str. */
  predicate NonStr(e: Expr) {
    match e
    case Constant(lit) => !lit.LStr?
    case TupleDisplay(_) => Hashable(e) && HasValue(e)
    case IfExp(_, body, orelse) => NonStr(body) || NonStr(orelse)
    case _ => CanBeInt(e)
  }

  lemma {:induction false} NonStrValue(e: Expr) returns (v: Val)
    requires NonStr(e)
    ensures MayEval(e, v) && !v.VStr?
  {
    match e
    case Constant(lit) => v := LitValue(lit);
    case TupleDisplay(elts) =>
      var vs := SomeValues(elts);
      v := VTuple(vs);
    case IfExp(_, body, orelse) =>
      if NonStr(body) {
        v := NonStrValue(body);
      } else {
        v := NonStrValue(orelse);
      }
    case _ => v := IntValue(e);
  }

  /** Among the values is a dict with a key that is no str. */
  predicate GivesNonStr(e: Expr) {
    match e
    case DictDisplay(items) => HasValue(e) && exists i | 0 <= i < |items| :: ItemGivesNonStr(items[i])
    case IfExp(_, body, orelse) => GivesNonStr(body) || GivesNonStr(orelse)
    case DictComp(key) => NonStr(key)
    case Opaque(_) => true
    case _ => false
  }

  predicate ItemGivesNonStr(item: Item) {
    match item
    case Pair(key, _) => NonStr(key)
    case Unpack(mapping) => GivesNonStr(mapping)
  }

  lemma {:induction false} NonStrKey(item: Item) returns (k: Val)
    requires ItemGivesNonStr(item)
    ensures GivesKey(item, k) && !k.VStr?
  {
    match item
    case Pair(key, _) => k := NonStrValue(key);
    case Unpack(mapping) =>
      k := NonStrKeyOf(mapping);
      assert k in VDict([k]).keys;
  }

  lemma {:induction false} NonStrKeyOf(e: Expr) returns (k: Val)
    requires GivesNonStr(e)
    ensures MayEval(e, VDict([k])) && !k.VStr?
  {
    match e
    case DictDisplay(items) =>
      var i :| 0 <= i < |items| && ItemGivesNonStr(items[i]);
      k := NonStrKey(items[i]);
      assert KeyFromSome(items, k);
    case IfExp(_, body, orelse) =>
      if GivesNonStr(body) {
        k := NonStrKeyOf(body);
      } else {
        k := NonStrKeyOf(orelse);
      }
    case DictComp(key) => k := NonStrValue(key);
    case Opaque(_) => k := VInt(0);
  }

  /** Whether unpacking the mapping gives str keys only can be read off it. */
  ghost predicate DecidedItem(item: Item) {
    ItemHasValue(item) &&
    match item
    case Pair(key, _) => Sound(key)
    case Unpack(mapping) => StrKeyed(mapping) || GivesNonStr(mapping)
  }

  /** A dict display is sound exactly if, beside keys that are inferred as str, only mappings with str keys are
      unpacked. */
  lemma DictSoundIff(items: seq<Item>)
    requires forall i | 0 <= i < |items| :: DecidedItem(items[i])
    ensures Sound(DictDisplay(items)) <==>
            (OnlyStrKeys(items) ==>
               forall i | 0 <= i < |items| && items[i].Unpack? :: StrKeyed(items[i].mapping))
  {
    var e := DictDisplay(items);
    if !OnlyStrKeys(items) {
      forall v | MayEval(e, v) ensures HasType(v, Infer(e).value) {
        assert forall k | 0 <= k < |v.keys| :: KeyFromSome(items, v.keys[k]);
      }
    } else if i :| 0 <= i < |items| && items[i].Unpack? && !StrKeyed(items[i].mapping) {
      assert DecidedItem(items[i]);
      var k := NonStrKey(items[i]);
      var v := VDict([k]);
      assert KeyFromSome(items, v.keys[0]) && MayEval(e, v);
      assert !v.keys[0].VStr? && Infer(e) == Some(TDict(true));
    } else {
      forall i | 0 <= i < |items| ensures GivesStrOnly(items[i]) {
        assert DecidedItem(items[i]) && HasStrKey(items[i]);
      }
      forall v, k | MayEval(e, v) && 0 <= k < |v.keys| ensures v.keys[k].VStr? {
        StrKeysOnly(items, v.keys[k]);
      }
    }
  }

  ghost predicate GivesStrOnly(item: Item) {
    match item
    case Pair(key, _) => Infer(key) == Some(TStr) && Sound(key)
    case Unpack(mapping) => StrKeyed(mapping)
  }

  lemma StrKeysOnly(items: seq<Item>, v: Val)
    requires (forall i | 0 <= i < |items| :: GivesStrOnly(items[i])) && KeyFromSome(items, v)
    ensures v.VStr?
  {
    var j :| 0 <= j < |items| && GivesKey(items[j], v);
    StrKeyOnly(items[j], v);
  }

  lemma StrKeyOnly(item: Item, v: Val)
    requires GivesStrOnly(item) && GivesKey(item, v)
    ensures v.VStr?
  {
    match item
    case Pair(key, _) =>
      assert Infer(key).Some? && MayEval(key, v);
      assert HasType(v, Infer(key).value);
    case Unpack(_) => KeyOfItemSound(item, v);
  }

  // ------------------------------------------------------------------ comparisons

  /** If the value can be an object with operators of its own, nothing in the expression keeps it from being
      one: what stands beside it has a value. */
  predicate Decided(e: Expr) {
    match e
    case Signed(_, operand) => Decided(operand)
    case IfExp(_, body, orelse) => Decided(body) && Decided(orelse)
    case BinOp(_, left, right) =>
      TopPlain(e) || (Decided(left) && Decided(right) && HasValue(left) && HasValue(right))
    case _ => true
  }

  lemma {:induction false} CanBeOther(e: Expr)
    requires Decided(e) && !TopPlain(e)
    ensures MayEval(e, VOther)
  {
    match e
    case Signed(sign, operand) =>
      CanBeOther(operand);
      assert SignedTo(sign, VOther, VOther);
    case IfExp(_, body, orelse) =>
      if TopPlain(body) {
        CanBeOther(orelse);
      } else {
        CanBeOther(body);
      }
    case BinOp(op, left, right) =>
      if TopPlain(left) {
        CanBeOther(right);
        var a := SomeValue(left);
        assert CombinesTo(op, a, VOther, VOther);
      } else {
        CanBeOther(left);
        var b := SomeValue(right);
        assert CombinesTo(op, VOther, b, VOther);
      }
    case _ =>
  }

  /** Ordering the two can come to another object's operator: one of them can be such an object, or the first
      elements of two displays meet. */
  predicate Meets(left: Expr, right: Expr)
    decreases left
  {
    && HasValue(left) && HasValue(right)
    && ((Decided(left) && Decided(right) && !(TopPlain(left) && TopPlain(right))) ||
        (Aligned(left, right) && left.elts != [] && right.elts != [] && Meets(left.elts[0], right.elts[0])))
  }

  lemma {:induction false} MeetsReaches(left: Expr, right: Expr) returns (a: Val, b: Val)
    requires Meets(left, right)
    ensures MayEval(left, a) && MayEval(right, b) && OrderReaches(a, b)
    decreases left
  {
    if Decided(left) && Decided(right) && !(TopPlain(left) && TopPlain(right)) {
      a, b := OneIsOther(left, right);
    } else {
      var a0, b0 := MeetsReaches(left.elts[0], right.elts[0]);
      a := StartsWith(left, a0);
      b := StartsWith(right, b0);
    }
  }

  lemma OneIsOther(left: Expr, right: Expr) returns (a: Val, b: Val)
    requires Decided(left) && Decided(right) && HasValue(left) && HasValue(right)
    requires !(TopPlain(left) && TopPlain(right))
    ensures MayEval(left, a) && MayEval(right, b) && (a.VOther? || b.VOther?)
  {
    if TopPlain(left) {
      a := SomeValue(left);
      b := VOther;
      CanBeOther(right);
    } else {
      a := VOther;
      CanBeOther(left);
      b := SomeValue(right);
    }
  }

  lemma StartsWith(e: Expr, first: Val) returns (v: Val)
    requires (e.ListDisplay? || e.TupleDisplay?) && e.elts != [] && HasValue(e) && MayEval(e.elts[0], first)
    ensures MayEval(e, v) && (if e.ListDisplay? then v.VList? else v.VTuple?)
    ensures v.items != [] && v.items[0] == first
  {
    var vs := SomeValues(e.elts);
    vs := vs[0 := first];
    assert Displays(e.elts, vs);
    v := if e.ListDisplay? then VList(vs) else VTuple(vs);
  }

  /** The operator is not is or in, and its operands can come to another object's operator. */
  predicate MeetingLink(link: Link) {
    match link.op
    case Identity => false
    case Membership => false
    case Equality =>
      && LinkHasValues(link) && Decided(link.left) && Decided(link.right)
      && !(TopPlain(link.left) && TopPlain(link.right))
    case Ordering => Meets(link.left, link.right)
  }

  lemma MeetingLinkReaches(link: Link)
    requires MeetingLink(link)
    ensures LinkReaches(link)
  {
    if link.op == Equality {
      var a, b := OneIsOther(link.left, link.right);
      assert Reaches(Equality, a, b);
    } else {
      var a, b := MeetsReaches(link.left, link.right);
      assert Reaches(Ordering, a, b);
    }
  }

  lemma CompareSoundIffNothingReached(links: seq<Link>)
    ensures Sound(Compare(links)) <==> forall i | 0 <= i < |links| :: !LinkReaches(links[i])
  {
    var e := Compare(links);
    if i :| 0 <= i < |links| && LinkReaches(links[i]) {
      assert MayEval(e, VNone) && !HasType(VNone, TBool);
    } else {
      assert forall v | MayEval(e, v) :: v.VBool?;
    }
  }

  /** A comparison is sound exactly if each of its operators is safe: is, in and their negations always are, ==
      and != where neither operand can be an object with operators of its own, the others where ordering the
      operands cannot come to one either. */
  lemma CompareSoundIff(links: seq<Link>)
    requires forall i | 0 <= i < |links| :: SafeLink(links[i]) || MeetingLink(links[i])
    ensures Sound(Compare(links)) <==> forall i | 0 <= i < |links| :: SafeLink(links[i])
  {
    forall i | 0 <= i < |links| ensures LinkReaches(links[i]) <==> !SafeLink(links[i]) {
      if SafeLink(links[i]) {
        LinkSound(links[i]);
      } else {
        MeetingLinkReaches(links[i]);
      }
    }
    CompareSoundIffNothingReached(links);
  }

  /** What the value can hold can be read off a display of what has values, too. */
  predicate Searchable(e: Expr) {
    match e
    case ListDisplay(elts) => HasValue(e) && forall i | 0 <= i < |elts| :: Searchable(elts[i])
    case TupleDisplay(elts) => HasValue(e) && forall i | 0 <= i < |elts| :: Searchable(elts[i])
    case Signed(_, operand) => Decided(operand)
    case IfExp(_, body, orelse) => Searchable(body) && Searchable(orelse)
    case ListComp(elt) => Searchable(elt)
    case BinOp(_, _, _) => Plain(e) || (Decided(e) && !TopPlain(e))
    case _ => true
  }

  lemma {:induction false} CanHoldOther(e: Expr) returns (v: Val)
    requires Searchable(e) && !Plain(e)
    ensures MayEval(e, v) && HasOther(v)
  {
    match e
    case ListDisplay(elts) =>
      var vs := HoldsOther(elts);
      v := VList(vs);
    case TupleDisplay(elts) =>
      var vs := HoldsOther(elts);
      v := VTuple(vs);
    case Signed(_, _) =>
      CanBeOther(e);
      v := VOther;
    case IfExp(_, body, orelse) =>
      if Plain(body) {
        v := CanHoldOther(orelse);
      } else {
        v := CanHoldOther(body);
      }
    case ListComp(elt) =>
      var o := CanHoldOther(elt);
      v := VList([o]);
      assert HasOther(v.items[0]);
    case BinOp(_, _, _) =>
      CanBeOther(e);
      v := VOther;
    case _ => v := VOther;
  }

  lemma {:induction false} HoldsOther(elts: seq<Expr>) returns (vs: seq<Val>)
    requires forall i | 0 <= i < |elts| :: HasValue(elts[i]) && Searchable(elts[i])
    requires exists i | 0 <= i < |elts| :: !Plain(elts[i])
    ensures Displays(elts, vs) && exists i | 0 <= i < |vs| :: HasOther(vs[i])
  {
    var i :| 0 <= i < |elts| && !Plain(elts[i]);
    var o := CanHoldOther(elts[i]);
    vs := SomeValues(elts);
    vs := vs[i := o];
    assert HasOther(vs[i]);
  }

  /** Whether an object with operators of its own can be in a list or tuple is read off the expression. */
  lemma PlainIffHoldsNoOther(e: Expr)
    requires Safe(e) && Searchable(e)
    ensures Plain(e) <==> forall v :: MayEval(e, v) ==> !HasOther(v)
  {
    if Plain(e) {
      forall v | MayEval(e, v) ensures !HasOther(v) {
        PlainReachesNothing(e, v);
      }
    } else {
      var v := CanHoldOther(e);
      assert MayEval(e, v) && HasOther(v);
    }
  }
}
