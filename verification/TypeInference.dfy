/** scripts/annotate_local_vars.py: the annotation that _infer_type gives to an assigned expression, and
    the values the expression can have. */
module TypeInference {
  import opened Prelude

  /** The annotations, parsed. None as an element type is Any; a union lists its alternatives as written. */
  datatype Ty = TNone | TBool | TInt | TFloat | TStr | TBytes
              | TList(elt: Option<Ty>) | TSet(elt: Option<Ty>) | TDict(strKeys: bool)
              | TTuple(parts: seq<Ty>) | TTupleAny | TUnion(alts: seq<Ty>)

  datatype Lit = LNone | LBool(b: bool) | LInt(i: int) | LFloat(r: real) | LStr(s: string) | LBytes | LOther

  datatype Sign = UAdd | USub

  datatype Op = Add | Sub | Mult | FloorDiv | Mod | BitOr | BitAnd | BitXor | OtherOp

  /** One entry of a dict display: a pair, or ** in front of a mapping. */
  datatype Item = Pair(key: Expr, value: Expr) | Unpack(mapping: Expr)

  /** is and is not; in and not in; == and !=; <, <=, > and >=. */
  datatype CmpOp = Identity | Membership | Equality | Ordering

  /** One operator of a comparison with its operands. In a chain the right operand is the next link's left. */
  datatype Link = Link(left: Expr, op: CmpOp, right: Expr)

  /** Opaque is everything the inference gives up on: names, attributes, calls it does not know, ...
      overloads says whether its value may be an object with operators of its own. */
  datatype Expr =
    | Constant(lit: Lit)
    | JoinedStr
    | ListDisplay(elts: seq<Expr>)
    | SetDisplay(elts: seq<Expr>)
    | DictDisplay(items: seq<Item>)
    | TupleDisplay(elts: seq<Expr>)
    | Starred(e: Expr)
    | Not(e: Expr)
    | Signed(sign: Sign, e: Expr)
    | Compare(links: seq<Link>)
    | IfExp(test: Expr, body: Expr, orelse: Expr)
    | ListComp(elt: Expr)
    | SetComp(elt: Expr)
    | DictComp(key: Expr)
    | BinOp(op: Op, left: Expr, right: Expr)
    | Opaque(overloads: bool)

  // ------------------------------------------------------------------ _infer_type

  function InferLit(lit: Lit): Option<Ty> {
    match lit
    case LNone => Some(TNone)
    case LBool(_) => Some(TBool)
    case LInt(_) => Some(TInt)
    case LFloat(_) => Some(TFloat)
    case LStr(_) => Some(TStr)
    case LBytes => Some(TBytes)
    case LOther => None
  }

  /** The one type all the elements have, if there are elements and there is one. */
  function Common(types: seq<Option<Ty>>): Option<Ty> {
    if types != [] && forall i | 0 <= i < |types| :: types[i] == types[0] then types[0] else None
  }

  function Alternatives(t: Ty): seq<Ty> {
    if t.TUnion? then t.alts else [t]
  }

  predicate IntOp(op: Op) {
    op != OtherOp
  }

  /** No alternative of a union is a union. */
  predicate Flat(t: Ty) {
    forall i | 0 <= i < |Alternatives(t)| :: !Alternatives(t)[i].TUnion?
  }

  function Infer(e: Expr): (t: Option<Ty>)
    ensures t.Some? ==> Flat(t.value)
  {
    match e
    case Constant(lit) => InferLit(lit)
    case JoinedStr => Some(TStr)
    case ListDisplay(elts) => Some(TList(Common(InferAll(elts))))
    case SetDisplay(elts) => Some(TSet(Common(InferAll(elts))))
    case DictDisplay(items) => Some(TDict(items == [] || OnlyStrKeys(items)))
    case TupleDisplay(elts) =>
      var types := InferAll(elts);
      if forall i | 0 <= i < |types| :: types[i].Some?
      then Some(TTuple(seq(|types|, i requires 0 <= i < |types| => if types[i].Some? then types[i].value else TNone)))
      else Some(TTupleAny)
    case Starred(_) => None
    case Not(_) => Some(TBool)
    case Signed(_, operand) => Infer(operand)
    case Compare(_) => Some(TBool)
    case IfExp(_, body, orelse) =>
      var a, b := Infer(body), Infer(orelse);
      if a.Some? && a == b then a
      else if a.Some? && b.Some? then Some(TUnion(Alternatives(a.value) + Alternatives(b.value)))
      else None
    case ListComp(elt) => Some(TList(Infer(elt)))
    case SetComp(elt) => Some(TSet(Infer(elt)))
    case DictComp(_) => Some(TDict(false))
    case BinOp(op, left, right) =>
      if op == Add && Infer(left) == Some(TStr) && Infer(right) == Some(TStr) then Some(TStr)
      else if IntOp(op) && Infer(left) == Some(TInt) && Infer(right) == Some(TInt) then Some(TInt)
      else None
    case Opaque(_) => None
  }

  function InferAll(es: seq<Expr>): seq<Option<Ty>> {
    seq(|es|, i requires 0 <= i < |es| => Infer(es[i]))
  }

  /** key_types == {"str"}: there is a pair, and every pair's key is inferred to be a str. */
  predicate OnlyStrKeys(items: seq<Item>) {
    && (exists i | 0 <= i < |items| :: items[i].Pair?)
    && (forall i | 0 <= i < |items| :: HasStrKey(items[i]))
  }

  predicate HasStrKey(item: Item) {
    item.Pair? ==> Infer(item.key) == Some(TStr)
  }

  // ------------------------------------------------------------------ values

  /** Beside the built-in values: scalars without an order of their own (complex numbers, ...), objects that
      overload no operator, and objects that do. */
  datatype Val = VNone | VBool(b: bool) | VInt(i: int) | VFloat(r: real) | VStr(s: string) | VBytes
               | VList(items: seq<Val>) | VSet(items: seq<Val>) | VDict(keys: seq<Val>) | VTuple(items: seq<Val>)
               | VScalar | VObject | VOther

  /** A value is of a type; a bool is an int. */
  predicate HasType(v: Val, t: Ty)
    decreases t
  {
    match t
    case TNone => v.VNone?
    case TBool => v.VBool?
    case TInt => v.VInt? || v.VBool?
    case TFloat => v.VFloat?
    case TStr => v.VStr?
    case TBytes => v.VBytes?
    case TList(elt) => v.VList? && forall i | 0 <= i < |v.items| :: elt.Some? ==> HasType(v.items[i], elt.value)
    case TSet(elt) => v.VSet? && forall i | 0 <= i < |v.items| :: elt.Some? ==> HasType(v.items[i], elt.value)
    case TDict(strKeys) => v.VDict? && (strKeys ==> forall i | 0 <= i < |v.keys| :: v.keys[i].VStr?)
    case TTuple(parts) =>
      v.VTuple? && |v.items| == |parts| && forall i | 0 <= i < |parts| :: HasType(v.items[i], parts[i])
    case TTupleAny => v.VTuple?
    case TUnion(alts) => exists i | 0 <= i < |alts| :: HasType(v, alts[i])
  }

  function LitValue(lit: Lit): Val {
    match lit
    case LNone => VNone
    case LBool(b) => VBool(b)
    case LInt(i) => VInt(i)
    case LFloat(r) => VFloat(r)
    case LStr(s) => VStr(s)
    case LBytes => VBytes
    case LOther => VScalar
  }

  /** The value is an object with operators of its own, or a list or tuple with one somewhere in it. */
  predicate HasOther(v: Val) {
    match v
    case VOther => true
    case VList(items) => exists i | 0 <= i < |items| :: HasOther(items[i])
    case VTuple(items) => exists i | 0 <= i < |items| :: HasOther(items[i])
    case _ => false
  }

  predicate Numeric(v: Val) {
    v.VInt? || v.VBool? || v.VFloat?
  }

  function AsReal(v: Val): real
    requires Numeric(v)
  {
    if v.VFloat? then v.r else AsInt(v) as real
  }

  predicate BothSequences(a: Val, b: Val) {
    (a.VList? && b.VList?) || (a.VTuple? && b.VTuple?)
  }

  /** a == b can be true. */
  predicate MayEqual(a: Val, b: Val)
    decreases a
  {
    if a.VOther? || b.VOther? then true
    else if Numeric(a) && Numeric(b) then AsReal(a) == AsReal(b)
    else if BothSequences(a, b) then
      |a.items| == |b.items| && forall i | 0 <= i < |a.items| :: MayEqual(a.items[i], b.items[i])
    else if (a.VSet? && b.VSet?) || (a.VDict? && b.VDict?) then true
    else a == b
  }

  /** Ordering a and b returns what an object's own operator returns: that of one of them, or for two lists or
      two tuples, that of the first elements that differ. */
  predicate OrderReaches(a: Val, b: Val)
    decreases a
  {
    || a.VOther? || b.VOther?
    || (BothSequences(a, b) &&
        exists i | 0 <= i < |a.items| && i < |b.items| ::
          (forall j | 0 <= j < i :: MayEqual(a.items[j], b.items[j])) && OrderReaches(a.items[i], b.items[i]))
  }

  /** Comparing a and b returns what an object's own operator returns. Identity and membership tests always
      give a bool, and so do == and != unless one of the two is such an object itself. */
  predicate Reaches(op: CmpOp, a: Val, b: Val) {
    match op
    case Identity => false
    case Membership => false
    case Equality => a.VOther? || b.VOther?
    case Ordering => OrderReaches(a, b)
  }

  predicate IntLike(v: Val) {
    v.VInt? || v.VBool?
  }

  function AsInt(v: Val): int {
    match v
    case VInt(i) => i
    case VBool(b) => if b then 1 else 0
    case _ => 0
  }

  /** Python's // rounds towards minus infinity. */
  function FloorQuotient(a: int, b: int): int
    requires b != 0
  {
    if b > 0 then a / b else (-a) / (-b)
  }

  /** +u or -u can be v. Both make an int of a bool; other built-in values raise. */
  predicate SignedTo(sign: Sign, u: Val, v: Val) {
    match u
    case VInt(i) => v == VInt(if sign == USub then -i else i)
    case VBool(_) => v == VInt(if sign == USub then -AsInt(u) else AsInt(u))
    case VFloat(r) => v == VFloat(if sign == USub then -r else r)
    case VScalar => v.VScalar?
    case VOther => true
    case _ => false
  }

  /** a op b can be v; division by zero raises. Operands other than two ints or two strs are left open, but for
      this: only an object with operators of its own can bring in another. */
  predicate CombinesTo(op: Op, a: Val, b: Val, v: Val) {
    if IntLike(a) && IntLike(b) && IntOp(op) then
      match op
      case Add => v == VInt(AsInt(a) + AsInt(b))
      case Sub => v == VInt(AsInt(a) - AsInt(b))
      case Mult => v == VInt(AsInt(a) * AsInt(b))
      case FloorDiv => AsInt(b) != 0 && v == VInt(FloorQuotient(AsInt(a), AsInt(b)))
      case Mod => AsInt(b) != 0 && v == VInt(AsInt(a) - AsInt(b) * FloorQuotient(AsInt(a), AsInt(b)))
      case _ => if a.VBool? && b.VBool? then v.VBool? else v.VInt?
    else if a.VStr? && b.VStr? && op == Add then v == VStr(a.s + b.s)
    else a.VOther? || b.VOther? || (!v.VOther? && (HasOther(v) ==> HasOther(a) || HasOther(b)))
  }

  /** The expression can evaluate to v, whatever the names in it stand for: either branch of a conditional may
      be taken, and a comparison may come out either way. */
  ghost predicate MayEval(e: Expr, v: Val) {
    match e
    case Constant(lit) => v == LitValue(lit)
    case JoinedStr => v.VStr?
    case ListDisplay(elts) => v.VList? && Displays(elts, v.items)
    case SetDisplay(elts) => v.VSet? && forall i | 0 <= i < |v.items| :: FromSome(elts, v.items[i])
    case DictDisplay(items) => v.VDict? && forall i | 0 <= i < |v.keys| :: KeyFromSome(items, v.keys[i])
    case TupleDisplay(elts) => v.VTuple? && Displays(elts, v.items)
    case Starred(_) => true
    case Not(_) => v.VBool?
    case Signed(sign, operand) => exists u :: MayEval(operand, u) && SignedTo(sign, u, v)
    case Compare(links) => v.VBool? || exists i | 0 <= i < |links| :: LinkReaches(links[i])
    case IfExp(_, body, orelse) => MayEval(body, v) || MayEval(orelse, v)
    case ListComp(elt) => v.VList? && forall i | 0 <= i < |v.items| :: MayEval(elt, v.items[i])
    case SetComp(elt) => v.VSet? && forall i | 0 <= i < |v.items| :: MayEval(elt, v.items[i])
    case DictComp(key) => v.VDict? && forall i | 0 <= i < |v.keys| :: MayEval(key, v.keys[i])
    case BinOp(op, left, right) => exists a, b :: MayEval(left, a) && MayEval(right, b) && CombinesTo(op, a, b, v)
    case Opaque(overloads) => overloads || !HasOther(v)
  }

  /** The items of a list or tuple display: one for each element, in order; with a starred one, any. */
  ghost predicate Displays(elts: seq<Expr>, items: seq<Val>) {
    || (exists i | 0 <= i < |elts| :: elts[i].Starred?)
    || (|items| == |elts| && forall i | 0 <= i < |elts| :: MayEval(elts[i], items[i]))
  }

  ghost predicate LinkReaches(link: Link) {
    exists a, b :: MayEval(link.left, a) && MayEval(link.right, b) && Reaches(link.op, a, b)
  }

  /** v is an element that one of the displayed expressions contributes; a starred one contributes anything. */
  ghost predicate FromSome(elts: seq<Expr>, v: Val) {
    exists i | 0 <= i < |elts| :: MayEval(elts[i], v)
  }

  ghost predicate KeyFromSome(items: seq<Item>, v: Val) {
    exists i | 0 <= i < |items| :: GivesKey(items[i], v)
  }

  /** A pair gives the value of its key; ** gives the keys of a dict, and of another mapping any; it raises on
      everything else. */
  ghost predicate GivesKey(item: Item, v: Val) {
    match item
    case Pair(key, _) => MayEval(key, v)
    case Unpack(mapping) => exists d :: MayEval(mapping, d) && (d.VOther? || d.VObject? || (d.VDict? && v in d.keys))
  }

  // ------------------------------------------------------------------ where the inference is sound

  /** Whatever the expression evaluates to is of the inferred type. */
  ghost predicate Sound(e: Expr) {
    Infer(e).Some? ==> forall v :: MayEval(e, v) ==> HasType(v, Infer(e).value)
  }

  /** The value is never itself an object with operators of its own. */
  predicate TopPlain(e: Expr) {
    match e
    case Starred(_) => false
    case Signed(_, operand) => TopPlain(operand)
    case IfExp(_, body, orelse) => TopPlain(body) && TopPlain(orelse)
    case BinOp(_, left, right) => Infer(e).Some? || (TopPlain(left) && TopPlain(right))
    case Opaque(overloads) => !overloads
    case _ => true
  }

  /** Nor is one anywhere in it, if it is a list or a tuple. */
  predicate Plain(e: Expr) {
    match e
    case ListDisplay(elts) => forall i | 0 <= i < |elts| :: Plain(elts[i])
    case TupleDisplay(elts) => forall i | 0 <= i < |elts| :: Plain(elts[i])
    case Starred(_) => false
    case Signed(_, operand) => TopPlain(operand)
    case IfExp(_, body, orelse) => Plain(body) && Plain(orelse)
    case ListComp(elt) => Plain(elt)
    case BinOp(_, left, right) => Infer(e).Some? || (Plain(left) && Plain(right))
    case Opaque(overloads) => !overloads
    case _ => true
  }

  /** The value is neither a list nor a tuple nor, being top-plain, another object. */
  predicate NoSequence(e: Expr) {
    match e
    case Constant(_) => true
    case JoinedStr => true
    case SetDisplay(_) => true
    case DictDisplay(_) => true
    case Not(_) => true
    case Signed(_, _) => true
    case Compare(_) => true
    case SetComp(_) => true
    case DictComp(_) => true
    case _ => false
  }

  /** Two displays of the same kind, whose elements stand against each other one by one. */
  predicate Aligned(left: Expr, right: Expr) {
    && ((left.ListDisplay? && right.ListDisplay?) || (left.TupleDisplay? && right.TupleDisplay?))
    && (forall i | 0 <= i < |left.elts| :: !left.elts[i].Starred?)
    && (forall i | 0 <= i < |right.elts| :: !right.elts[i].Starred?)
  }

  predicate DifferentKinds(left: Expr, right: Expr) {
    || NoSequence(left) || NoSequence(right)
    || ((left.ListDisplay? || left.ListComp?) && right.TupleDisplay?)
    || (left.TupleDisplay? && (right.ListDisplay? || right.ListComp?))
  }

  /** Ordering the two never comes to another object's operator. */
  predicate Apart(left: Expr, right: Expr)
    decreases left
  {
    || (Plain(left) && Plain(right))
    || (TopPlain(left) && TopPlain(right) &&
        (DifferentKinds(left, right) ||
         (Aligned(left, right) &&
          forall i | 0 <= i < |left.elts| && i < |right.elts| :: Apart(left.elts[i], right.elts[i]))))
  }

  /** The inferred type has no bool alternative, or has an int one beside it. */
  predicate SignKeepsType(t: Option<Ty>) {
    t.Some? && TBool in Alternatives(t.value) ==> TInt in Alternatives(t.value)
  }

  /** No sign on what is inferred as bool, nothing but str keys unpacked beside str keys, and no comparison that
      can come to another object's operator. */
  predicate Safe(e: Expr)
    decreases e, 0
  {
    match e
    case ListDisplay(elts) => forall i | 0 <= i < |elts| :: Safe(elts[i])
    case SetDisplay(elts) => forall i | 0 <= i < |elts| :: Safe(elts[i])
    case DictDisplay(items) => OnlyStrKeys(items) ==> forall i | 0 <= i < |items| :: StrItem(items[i])
    case TupleDisplay(elts) => forall i | 0 <= i < |elts| :: Safe(elts[i])
    case Signed(_, operand) => Safe(operand) && SignKeepsType(Infer(operand))
    case Compare(links) => forall i | 0 <= i < |links| :: SafeLink(links[i])
    case IfExp(_, body, orelse) => Safe(body) && Safe(orelse)
    case ListComp(elt) => Safe(elt)
    case SetComp(elt) => Safe(elt)
    case BinOp(_, left, right) => Safe(left) && Safe(right)
    case _ => true
  }

  predicate SafeLink(link: Link)
    decreases link, 0
  {
    match link.op
    case Identity => true
    case Membership => true
    case Equality => Safe(link.left) && Safe(link.right) && TopPlain(link.left) && TopPlain(link.right)
    case Ordering => Safe(link.left) && Safe(link.right) && Apart(link.left, link.right)
  }

  /** If the value can be unpacked with **, it gives str keys only. */
  predicate StrKeyed(e: Expr)
    decreases e, 1
  {
    match e
    case DictDisplay(items) => forall i | 0 <= i < |items| :: StrItem(items[i])
    case Starred(_) => false
    case Signed(_, operand) => Safe(operand) && TopPlain(operand)
    case Compare(_) => Safe(e)
    case IfExp(_, body, orelse) => StrKeyed(body) && StrKeyed(orelse)
    case DictComp(key) => Infer(key) == Some(TStr) && Safe(key)
    case BinOp(_, _, _) => Infer(e).Some? && Safe(e)
    case Opaque(_) => false
    case _ => true
  }

  predicate StrItem(item: Item)
    decreases item, 0
  {
    match item
    case Pair(key, _) => Infer(key) == Some(TStr) && Safe(key)
    case Unpack(mapping) => StrKeyed(mapping)
  }

  lemma HasSomeAlternative(v: Val, t: Ty) returns (a: Ty)
    requires HasType(v, t)
    ensures a in Alternatives(t) && HasType(v, a)
  {
    var alts := Alternatives(t);
    assert exists i | 0 <= i < |alts| :: HasType(v, alts[i]) by {
      assert !t.TUnion? ==> alts[0] == t;
    }
    var i :| 0 <= i < |alts| && HasType(v, alts[i]);
    a := alts[i];
  }

  lemma HasAnAlternative(v: Val, t: Ty, a: Ty)
    requires a in Alternatives(t) && HasType(v, a)
    ensures HasType(v, t)
  {
    var k :| 0 <= k < |Alternatives(t)| && Alternatives(t)[k] == a;
  }

  /** A value of a type is of any union that has all the type's alternatives. */
  lemma Widens(v: Val, t: Ty, wide: seq<Ty>)
    requires HasType(v, t) && forall a :: a in Alternatives(t) ==> a in wide
    ensures HasType(v, TUnion(wide))
  {
    var a := HasSomeAlternative(v, t);
    HasAnAlternative(v, TUnion(wide), a);
  }

  // Among the types that are not unions, only bool loses a value to a sign.
  lemma SignOnSimple(sign: Sign, u: Val, v: Val, t: Ty)
    requires !t.TUnion? && HasType(u, t) && SignedTo(sign, u, v) && (t != TBool || !u.VBool?)
    ensures HasType(v, t)
  {
  }

  lemma {:induction false} SignKeeps(sign: Sign, u: Val, v: Val, t: Ty)
    requires Flat(t) && HasType(u, t) && SignedTo(sign, u, v)
    requires u.VBool? ==> TInt in Alternatives(t)
    ensures HasType(v, t)
  {
    var a := HasSomeAlternative(u, t);
    if u.VBool? {
      HasAnAlternative(v, t, TInt);
    } else {
      SignOnSimple(sign, u, v, a);
      HasAnAlternative(v, t, a);
    }
  }

  // A bool among the values of a type without int comes from a bool alternative.
  lemma BoolAlternative(u: Val, t: Ty)
    requires Flat(t) && HasType(u, t) && u.VBool? && SignKeepsType(Some(t))
    ensures TInt in Alternatives(t)
  {
    var a := HasSomeAlternative(u, t);
  }

  // An int is only of int, or of a union with int in it.
  lemma IntAlternative(i: int, t: Ty)
    requires Flat(t) && HasType(VInt(i), t)
    ensures TInt in Alternatives(t)
  {
    var a := HasSomeAlternative(VInt(i), t);
  }

  // ------------------------------------------------------------------ ordering

  lemma {:induction false} OrderNeedsOther(a: Val, b: Val)
    requires OrderReaches(a, b)
    ensures HasOther(a) || HasOther(b)
    decreases a
  {
    if !a.VOther? && !b.VOther? {
      var i :| 0 <= i < |a.items| && i < |b.items| && OrderReaches(a.items[i], b.items[i]);
      OrderNeedsOther(a.items[i], b.items[i]);
    }
  }

  /** What is said of the expression's values holds of each of them. */
  ghost predicate Kept(e: Expr) {
    forall v | MayEval(e, v) ::
      && (TopPlain(e) ==> !v.VOther?)
      && (Plain(e) ==> !HasOther(v))
      && (NoSequence(e) && TopPlain(e) ==> !v.VList? && !v.VTuple?)
  }

  /** And of the elements of displays, all the way down. */
  ghost predicate KeptDeep(e: Expr) {
    && Kept(e)
    && (e.ListDisplay? ==> forall i | 0 <= i < |e.elts| :: KeptDeep(e.elts[i]))
    && (e.TupleDisplay? ==> forall i | 0 <= i < |e.elts| :: KeptDeep(e.elts[i]))
  }

  /** Ordering two expressions that are apart never comes to another object's operator. */
  lemma {:induction false} ApartReachesNothing(left: Expr, right: Expr, a: Val, b: Val)
    requires KeptDeep(left) && KeptDeep(right) && Apart(left, right) && MayEval(left, a) && MayEval(right, b)
    ensures !OrderReaches(a, b)
    decreases left
  {
    if Plain(left) && Plain(right) {
      if OrderReaches(a, b) {
        OrderNeedsOther(a, b);
      }
    } else if Aligned(left, right) && !DifferentKinds(left, right) {
      forall i | 0 <= i < |a.items| && i < |b.items| ensures !OrderReaches(a.items[i], b.items[i]) {
        assert Apart(left.elts[i], right.elts[i]);
        ApartReachesNothing(left.elts[i], right.elts[i], a.items[i], b.items[i]);
      }
    }
  }

  // ------------------------------------------------------------------ the theorem

  lemma {:induction false} ElementsSound(elts: seq<Expr>, v: Val, t: Ty)
    requires Common(InferAll(elts)) == Some(t)
    requires forall i | 0 <= i < |elts| :: Safe(elts[i])
    requires FromSome(elts, v)
    ensures HasType(v, t)
    decreases elts, 0
  {
    var i :| 0 <= i < |elts| && MayEval(elts[i], v);
    assert InferAll(elts)[i] == Infer(elts[i]) == Some(t);
    InferenceSound(elts[i], v);
  }

  lemma {:induction false} KeySound(items: seq<Item>, v: Val)
    requires (forall i | 0 <= i < |items| :: StrItem(items[i])) && KeyFromSome(items, v)
    ensures v.VStr?
    decreases items, 1
  {
    var i :| 0 <= i < |items| && GivesKey(items[i], v);
    KeyOfItemSound(items[i], v);
  }

  lemma {:induction false} KeyOfItemSound(item: Item, v: Val)
    requires StrItem(item) && GivesKey(item, v)
    ensures v.VStr?
    decreases item, 0
  {
    match item
    case Pair(key, _) => InferenceSound(key, v);
    case Unpack(mapping) =>
      var d :| MayEval(mapping, d) && (d.VOther? || d.VObject? || (d.VDict? && v in d.keys));
      StrKeyedSound(mapping, d);
  }

  /** Unpacking a value of a str-keyed expression gives str keys. */
  lemma {:induction false} StrKeyedSound(e: Expr, d: Val)
    requires StrKeyed(e) && MayEval(e, d)
    ensures !d.VOther? && !d.VObject? && (d.VDict? ==> forall i | 0 <= i < |d.keys| :: d.keys[i].VStr?)
    decreases e, 3
  {
    match e
    case DictDisplay(items) =>
      forall i | 0 <= i < |d.keys| ensures d.keys[i].VStr? { KeySound(items, d.keys[i]); }
    case Signed(sign, operand) =>
      var u :| MayEval(operand, u) && SignedTo(sign, u, d);
      TopPlainIsNotOther(operand, u);
    case Compare(links) => CompareSound(links, d);
    case IfExp(_, body, orelse) =>
      if MayEval(body, d) {
        StrKeyedSound(body, d);
      } else {
        StrKeyedSound(orelse, d);
      }
    case DictComp(key) =>
      forall i | 0 <= i < |d.keys| ensures d.keys[i].VStr? { InferenceSound(key, d.keys[i]); }
    case BinOp(_, _, _) => BinOpSound(e, d);
    case _ =>
  }

  lemma {:induction false} DisplaySound(elts: seq<Expr>, vs: seq<Val>, t: Ty)
    requires Common(InferAll(elts)) == Some(t)
    requires forall i | 0 <= i < |elts| :: Safe(elts[i])
    requires forall i | 0 <= i < |vs| :: FromSome(elts, vs[i])
    ensures forall i | 0 <= i < |vs| :: HasType(vs[i], t)
    decreases elts, 1
  {
    forall i | 0 <= i < |vs| ensures HasType(vs[i], t) { ElementsSound(elts, vs[i], t); }
  }

  lemma {:induction false} ComprehensionSound(elt: Expr, vs: seq<Val>)
    requires Safe(elt) && Infer(elt).Some?
    requires forall i | 0 <= i < |vs| :: MayEval(elt, vs[i])
    ensures forall i | 0 <= i < |vs| :: HasType(vs[i], Infer(elt).value)
    decreases elt, 2
  {
    forall i | 0 <= i < |vs| ensures HasType(vs[i], Infer(elt).value) { InferenceSound(elt, vs[i]); }
  }

  // No element is starred where one type is inferred for all.
  lemma DisplayedAreFromSome(elts: seq<Expr>, items: seq<Val>, t: Ty)
    requires Common(InferAll(elts)) == Some(t) && Displays(elts, items)
    ensures forall i | 0 <= i < |items| :: FromSome(elts, items[i])
  {
    forall i | 0 <= i < |elts| ensures !elts[i].Starred? {
      assert InferAll(elts)[i] == Infer(elts[i]);
    }
  }

  lemma {:induction false} DictSound(items: seq<Item>, v: Val)
    requires Safe(DictDisplay(items)) && MayEval(DictDisplay(items), v)
    ensures HasType(v, Infer(DictDisplay(items)).value)
    decreases items, 2
  {
    if OnlyStrKeys(items) {
      forall i | 0 <= i < |v.keys| ensures v.keys[i].VStr? { KeySound(items, v.keys[i]); }
    } else if items == [] {
      assert forall i | 0 <= i < |v.keys| :: !KeyFromSome(items, v.keys[i]);
    }
  }

  lemma {:induction false} TupleSound(elts: seq<Expr>, v: Val)
    requires forall i | 0 <= i < |elts| :: Safe(elts[i])
    requires MayEval(TupleDisplay(elts), v)
    ensures HasType(v, Infer(TupleDisplay(elts)).value)
  {
    var types := InferAll(elts);
    if forall i | 0 <= i < |types| :: types[i].Some? {
      forall i | 0 <= i < |elts| ensures !elts[i].Starred? {
        assert types[i] == Infer(elts[i]);
      }
      forall i | 0 <= i < |elts| ensures HasType(v.items[i], types[i].value) {
        assert types[i] == Infer(elts[i]);
        InferenceSound(elts[i], v.items[i]);
      }
    }
  }

  lemma {:induction false} SignedSound(e: Expr, v: Val)
    requires e.Signed? && Safe(e) && Infer(e).Some? && MayEval(e, v)
    ensures HasType(v, Infer(e).value)
    decreases e, 0
  {
    var Signed(sign, operand) := e;
    var u :| MayEval(operand, u) && SignedTo(sign, u, v);
    InferenceSound(operand, u);
    if u.VBool? {
      BoolAlternative(u, Infer(operand).value);
    }
    SignKeeps(sign, u, v, Infer(operand).value);
  }

  lemma {:induction false} CompareSound(links: seq<Link>, v: Val)
    requires Safe(Compare(links)) && MayEval(Compare(links), v)
    ensures v.VBool?
    decreases links, 1
  {
    forall i | 0 <= i < |links| ensures !LinkReaches(links[i]) { LinkSound(links[i]); }
  }

  lemma {:induction false} LinkSound(link: Link)
    requires SafeLink(link)
    ensures !LinkReaches(link)
    decreases link, 0
  {
    forall a, b | MayEval(link.left, a) && MayEval(link.right, b) ensures !Reaches(link.op, a, b) {
      if link.op == Equality {
        TopPlainIsNotOther(link.left, a);
        TopPlainIsNotOther(link.right, b);
      } else if link.op == Ordering {
        SafeIsKept(link.left);
        SafeIsKept(link.right);
        ApartReachesNothing(link.left, link.right, a, b);
      }
    }
  }

  lemma {:induction false} BranchSound(e: Expr, v: Val, wide: seq<Ty>)
    requires Safe(e) && Infer(e).Some? && MayEval(e, v)
    requires forall a :: a in Alternatives(Infer(e).value) ==> a in wide
    ensures HasType(v, Infer(e).value) && HasType(v, TUnion(wide))
    decreases e, 2
  {
    InferenceSound(e, v);
    Widens(v, Infer(e).value, wide);
  }

  lemma {:induction false} IfExpSound(e: Expr, v: Val)
    requires e.IfExp? && Safe(e) && Infer(e).Some? && MayEval(e, v)
    ensures HasType(v, Infer(e).value)
    decreases e, 0
  {
    var IfExp(test, body, orelse) := e;
    var wide := Alternatives(Infer(body).value) + Alternatives(Infer(orelse).value);
    if MayEval(body, v) {
      BranchSound(body, v, wide);
    } else {
      BranchSound(orelse, v, wide);
    }
  }

  lemma CombinedIsTyped(op: Op, a: Val, b: Val, v: Val, t: Ty)
    requires CombinesTo(op, a, b, v) && HasType(a, t) && HasType(b, t)
    requires (op == Add && t == TStr) || (IntOp(op) && t == TInt)
    ensures HasType(v, t) && !HasOther(v)
  {
  }

  lemma {:induction false} BinOpSound(e: Expr, v: Val)
    requires e.BinOp? && Safe(e) && Infer(e).Some? && MayEval(e, v)
    ensures HasType(v, Infer(e).value) && !HasOther(v)
    decreases e, 0
  {
    var BinOp(op, left, right) := e;
    var a, b :| MayEval(left, a) && MayEval(right, b) && CombinesTo(op, a, b, v);
    InferenceSound(left, a);
    InferenceSound(right, b);
    CombinedIsTyped(op, a, b, v, Infer(e).value);
  }

  /** Every value a safe expression can have is of the type inferred for it. */
  lemma {:induction false} InferenceSound(e: Expr, v: Val)
    requires Safe(e) && Infer(e).Some? && MayEval(e, v)
    ensures HasType(v, Infer(e).value)
    decreases e, 1
  {
    match e
    case ListDisplay(elts) =>
      var t := Common(InferAll(elts));
      if t.Some? {
        DisplayedAreFromSome(elts, v.items, t.value);
        DisplaySound(elts, v.items, t.value);
      }
    case SetDisplay(elts) =>
      var t := Common(InferAll(elts));
      if t.Some? { DisplaySound(elts, v.items, t.value); }
    case DictDisplay(items) => DictSound(items, v);
    case TupleDisplay(elts) => TupleSound(elts, v);
    case Signed(_, _) => SignedSound(e, v);
    case Compare(links) => CompareSound(links, v);
    case IfExp(_, _, _) => IfExpSound(e, v);
    case ListComp(elt) =>
      if Infer(elt).Some? { ComprehensionSound(elt, v.items); }
    case SetComp(elt) =>
      if Infer(elt).Some? { ComprehensionSound(elt, v.items); }
    case BinOp(_, _, _) => BinOpSound(e, v);
    case _ =>
  }

  lemma {:induction false} TopPlainIsNotOther(e: Expr, v: Val)
    requires Safe(e) && TopPlain(e) && MayEval(e, v)
    ensures !v.VOther?
    decreases e, 1
  {
    match e
    case Signed(sign, operand) =>
      var u :| MayEval(operand, u) && SignedTo(sign, u, v);
      TopPlainIsNotOther(operand, u);
    case Compare(links) => CompareSound(links, v);
    case IfExp(_, body, orelse) =>
      if MayEval(body, v) {
        TopPlainIsNotOther(body, v);
      } else {
        TopPlainIsNotOther(orelse, v);
      }
    case BinOp(op, left, right) =>
      if Infer(e).Some? {
        BinOpSound(e, v);
        TypedIsNotOther(v, Infer(e).value);
      } else {
        var a, b :| MayEval(left, a) && MayEval(right, b) && CombinesTo(op, a, b, v);
        TopPlainIsNotOther(left, a);
        TopPlainIsNotOther(right, b);
        CombinesNoOther(op, a, b, v);
      }
    case _ =>
  }

  lemma {:induction false} TypedIsNotOther(v: Val, t: Ty)
    requires HasType(v, t)
    ensures !v.VOther?
    decreases t
  {
    if t.TUnion? {
      var i :| 0 <= i < |t.alts| && HasType(v, t.alts[i]);
      TypedIsNotOther(v, t.alts[i]);
    }
  }

  lemma CombinesNoOther(op: Op, a: Val, b: Val, v: Val)
    requires CombinesTo(op, a, b, v) && !a.VOther? && !b.VOther?
    ensures !v.VOther?
  {
  }

  // What a signed or a compared value can be.
  lemma {:induction false} NoSequenceValue(e: Expr, v: Val)
    requires Safe(e) && NoSequence(e) && TopPlain(e) && MayEval(e, v)
    ensures !v.VList? && !v.VTuple? && !v.VOther?
    decreases e, 1
  {
    match e
    case Signed(sign, operand) =>
      var u :| MayEval(operand, u) && SignedTo(sign, u, v);
      TopPlainIsNotOther(operand, u);
    case Compare(links) => CompareSound(links, v);
    case _ =>
  }

  lemma {:induction false} PlainReachesNothing(e: Expr, v: Val)
    requires Safe(e) && Plain(e) && MayEval(e, v)
    ensures !HasOther(v)
    decreases e, 2
  {
    match e
    case ListDisplay(elts) => DisplayReachesNothing(elts, v.items);
    case TupleDisplay(elts) => DisplayReachesNothing(elts, v.items);
    case Signed(sign, operand) =>
      var u :| MayEval(operand, u) && SignedTo(sign, u, v);
      TopPlainIsNotOther(operand, u);
    case Compare(links) => CompareSound(links, v);
    case IfExp(_, body, orelse) =>
      if MayEval(body, v) {
        PlainReachesNothing(body, v);
      } else {
        PlainReachesNothing(orelse, v);
      }
    case ListComp(elt) =>
      forall i | 0 <= i < |v.items| ensures !HasOther(v.items[i]) { PlainReachesNothing(elt, v.items[i]); }
    case BinOp(_, _, _) => CombinedReachesNothing(e, v);
    case _ =>
  }

  lemma {:induction false} CombinedReachesNothing(e: Expr, v: Val)
    requires e.BinOp? && Safe(e) && Plain(e) && MayEval(e, v)
    ensures !HasOther(v)
    decreases e, 1
  {
    if Infer(e).Some? {
      BinOpSound(e, v);
    } else {
      var a, b :| MayEval(e.left, a) && MayEval(e.right, b) && CombinesTo(e.op, a, b, v);
      PlainReachesNothing(e.left, a);
      PlainReachesNothing(e.right, b);
      CombinesPlain(e.op, a, b, v);
    }
  }

  lemma CombinesPlain(op: Op, a: Val, b: Val, v: Val)
    requires CombinesTo(op, a, b, v) && !HasOther(a) && !HasOther(b)
    ensures !HasOther(v)
  {
  }

  lemma {:induction false} DisplayReachesNothing(elts: seq<Expr>, items: seq<Val>)
    requires (forall i | 0 <= i < |elts| :: Safe(elts[i]) && Plain(elts[i])) && Displays(elts, items)
    ensures forall i | 0 <= i < |items| :: !HasOther(items[i])
    decreases elts, 1
  {
    forall i | 0 <= i < |elts| ensures !elts[i].Starred? { assert Plain(elts[i]); }
    forall i | 0 <= i < |items| ensures !HasOther(items[i]) { PlainReachesNothing(elts[i], items[i]); }
  }

  lemma {:induction false} SafeIsKept(e: Expr)
    requires Safe(e)
    ensures KeptDeep(e)
    decreases e, 3
  {
    forall v | MayEval(e, v)
      ensures TopPlain(e) ==> !v.VOther?
      ensures Plain(e) ==> !HasOther(v)
      ensures NoSequence(e) && TopPlain(e) ==> !v.VList? && !v.VTuple?
    {
      if TopPlain(e) { TopPlainIsNotOther(e, v); }
      if Plain(e) { PlainReachesNothing(e, v); }
      if NoSequence(e) && TopPlain(e) { NoSequenceValue(e, v); }
    }
    if e.ListDisplay? || e.TupleDisplay? {
      forall i | 0 <= i < |e.elts| ensures KeptDeep(e.elts[i]) { SafeIsKept(e.elts[i]); }
    }
  }

  /** So every safe expression is sound, whatever stands in it. */
  lemma SafeIsSound(e: Expr)
    requires Safe(e)
    ensures Sound(e)
  {
    if Infer(e).Some? {
      forall v | MayEval(e, v) ensures HasType(v, Infer(e).value) {
        InferenceSound(e, v);
      }
    }
  }
}
