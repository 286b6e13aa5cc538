/** data-product-catalog-service/src/registration/contract-hash.ts: the canonical
    text of a contract, and what it identifies. */
module CanonicalJson {
  import opened Json
  import StableSort

  // ------------------------------------------------------------ key orders

  /** `a < b` on strings: by code unit. */
  predicate Less(a: Text, b: Text) {
    if b == [] then false
    else if a == [] then true
    else if a[0] != b[0] then a[0] < b[0]
    else Less(a[1..], b[1..])
  }

  lemma {:induction false} LessTotal(a: Text, b: Text)
    ensures !(Less(a, b) && Less(b, a)) && (a == b || Less(a, b) || Less(b, a)) && !Less(a, a)
  {
    if a != [] && b != [] && a[0] == b[0] {
      LessTotal(a[1..], b[1..]);
      assert a == [a[0]] + a[1..] && b == [b[0]] + b[1..];
    }
    if a != [] {
      LessTotal(a[1..], a[1..]);
    }
  }

  lemma {:induction false} LessTransitive(a: Text, b: Text, c: Text)
    requires Less(a, b) && Less(b, c)
    ensures Less(a, c)
  {
    if a != [] && a[0] == b[0] == c[0] {
      LessTransitive(a[1..], b[1..], c[1..]);
    }
  }

  const LAST_INDEX: Text := [52, 50, 57, 52, 57, 54, 55, 50, 57, 52]

  /** The decimal form of an array index: 0 to 4294967294, no leading zero. */
  predicate IsIndex(k: Text) {
    && 0 < |k| <= 10
    && (forall i :: 0 <= i < |k| ==> 48 <= k[i] <= 57)
    && (k[0] != 48 || |k| == 1)
    && (|k| == 10 ==> !Less(LAST_INDEX, k))
  }

  predicate NumberLess(k: Text, l: Text) { |k| < |l| || (|k| == |l| && Less(k, l)) }

  /** Objects enumerate index keys first, ascending (section 10.1.11 of ECMA-262);
      the other keys follow as they were added, which is sorted. */
  predicate Before(k: Text, l: Text) {
    if IsIndex(k) && IsIndex(l) then NumberLess(k, l)
    else if IsIndex(k) || IsIndex(l) then IsIndex(k)
    else Less(k, l)
  }

  lemma BeforeTotal(k: Text, l: Text)
    ensures !(Before(k, l) && Before(l, k)) && (k == l || Before(k, l) || Before(l, k)) && !Before(k, k)
  {
    LessTotal(k, l);
  }

  lemma BeforeTransitive(k: Text, l: Text, m: Text)
    requires Before(k, l) && Before(l, m)
    ensures Before(k, m)
  {
    if Less(k, l) && Less(l, m) {
      LessTransitive(k, l, m);
    }
  }

  // ------------------------------------------------------------ the code

  /** The key whose assignment sets the prototype instead of a member. */
  const PROTO: Text := [95, 95, 112, 114, 111, 116, 111, 95, 95]

  /** `result[k] = v`, members in enumeration order. */
  function Assign(obj: seq<Member>, m: Member): seq<Member> {
    if m.key == PROTO then obj else Put(obj, m)
  }

  function Put(obj: seq<Member>, m: Member): seq<Member> {
    if obj == [] then [m]
    else if obj[0].key == m.key then [m] + obj[1..]
    else if IsIndex(m.key) && Before(m.key, obj[0].key) then [m] + obj
    else [obj[0]] + Put(obj[1..], m)
  }

  function Build(entries: seq<Member>): seq<Member> {
    if entries == [] then [] else Assign(Build(entries[..|entries| - 1]), entries[|entries| - 1])
  }

  predicate KeyLeq(a: Member, b: Member) { !Less(b.key, a.key) }

  function Canonicalize(j: Json): Json {
    match j
    case Arr(xs) => Arr(CanonicalAll(xs))
    case Obj(ms) => Obj(Build(StableSort.Sort(CanonicalMembers(ms), KeyLeq)))
    case _ => j
  }

  function CanonicalAll(xs: seq<Json>): (ys: seq<Json>)
    ensures |ys| == |xs| && forall i :: 0 <= i < |xs| ==> ys[i] == Canonicalize(xs[i])
  {
    if xs == [] then [] else [Canonicalize(xs[0])] + CanonicalAll(xs[1..])
  }

  /** The members that are not undefined, values canonical. */
  function CanonicalMembers(ms: seq<Member>): seq<Member> {
    if ms == [] then []
    else if ms[0].value.Undefined? then CanonicalMembers(ms[1..])
    else [Member(ms[0].key, Canonicalize(ms[0].value))] + CanonicalMembers(ms[1..])
  }

  function CanonicalText(j: Json): Text { Stringify(Canonicalize(j)) }

  /** Data as JavaScript holds it: no object has a key twice. */
  predicate Data(j: Json) {
    match j
    case Num(n) => Notation(n)
    case Arr(xs) => forall i :: 0 <= i < |xs| ==> Data(xs[i])
    case Obj(ms) =>
      (forall i :: 0 <= i < |ms| ==> Data(ms[i].value))
      && (forall i, k :: 0 <= i < k < |ms| ==> ms[i].key != ms[k].key)
    case _ => true
  }

  predicate DistinctKeys(ms: seq<Member>) {
    forall i, k :: 0 <= i < k < |ms| ==> ms[i].key != ms[k].key
  }

  predicate Ordered(ms: seq<Member>) {
    forall i, k :: 0 <= i < k < |ms| ==> Before(ms[i].key, ms[k].key)
  }

  predicate Ascending(ms: seq<Member>) {
    forall i, k :: 0 <= i < k < |ms| ==> Less(ms[i].key, ms[k].key)
  }

  // ------------------------------------------------- the object that is built

  lemma KeyLeqIsPreorder()
    ensures StableSort.TotalPreorder(KeyLeq)
  {
    forall a, b ensures KeyLeq(a, b) || KeyLeq(b, a) {
      LessTotal(a.key, b.key);
    }
    forall a, b, c | KeyLeq(a, b) && KeyLeq(b, c) ensures KeyLeq(a, c) {
      LessTotal(a.key, b.key);
      LessTotal(b.key, c.key);
      LessTotal(a.key, c.key);
      if Less(a.key, b.key) && Less(b.key, c.key) {
        LessTransitive(a.key, b.key, c.key);
      }
    }
  }

  lemma SortedEntries(ms: seq<Member>) returns (es: seq<Member>)
    requires DistinctKeys(ms)
    ensures es == StableSort.Sort(ms, KeyLeq)
    ensures Ascending(es) && forall m :: m in es <==> m in ms
  {
    es := StableSort.Sort(ms, KeyLeq);
    KeyLeqIsPreorder();
    StableSort.SortSorts(ms, KeyLeq);
    StableSort.SameElements(es, ms);
    forall i, k | 0 <= i < k < |es| ensures Less(es[i].key, es[k].key) {
      KeyLeqStep(es, ms, i, k);
    }
  }

  /** Distinct keys stay distinct under a rearrangement. */
  lemma KeyLeqStep(es: seq<Member>, ms: seq<Member>, i: int, k: int)
    requires DistinctKeys(ms) && multiset(es) == multiset(ms) && StableSort.Sorted(es, KeyLeq)
    requires 0 <= i < k < |es|
    ensures Less(es[i].key, es[k].key)
  {
    LessTotal(es[i].key, es[k].key);
    if es[i].key == es[k].key {
      var x, y := es[i], es[k];
      assert x in multiset(es) && y in multiset(es);
      var p :| 0 <= p < |ms| && ms[p] == x;
      var q :| 0 <= q < |ms| && ms[q] == y;
      assert p == q;
      OccursTwice(es, i, k);
      OccursOnce(ms, p);
    }
  }

  lemma OccursTwice(es: seq<Member>, i: int, k: int)
    requires 0 <= i < k < |es| && es[i] == es[k]
    ensures multiset(es)[es[i]] >= 2
  {
    assert es == es[..k] + es[k..];
    assert es[..k][i] in multiset(es[..k]) && es[k..][0] in multiset(es[k..]);
  }

  lemma OccursOnce(ms: seq<Member>, p: int)
    requires DistinctKeys(ms) && 0 <= p < |ms|
    ensures multiset(ms)[ms[p]] == 1
  {
    assert ms == ms[..p] + ([ms[p]] + ms[p + 1..]);
    assert ms[p] !in ms[..p] && ms[p] !in ms[p + 1..];
    assert ms[p] !in multiset(ms[..p]) && ms[p] !in multiset(ms[p + 1..]);
  }

  lemma {:induction false} PutKeepsOrder(obj: seq<Member>, m: Member)
    requires Ordered(obj) && forall x :: x in obj ==> Less(x.key, m.key)
    ensures Ordered(Put(obj, m))
    ensures forall x :: x in Put(obj, m) <==> x == m || x in obj
  {
    hide Before, Less, IsIndex;
    if obj != [] {
      var head, tail := obj[0], obj[1..];
      assert obj == [head] + tail && head in obj;
      LessTotal(head.key, m.key);
      BeforeNext(head.key, m.key);
      if IsIndex(m.key) && Before(m.key, head.key) {
        forall k | 0 < k < |obj| ensures Before(m.key, obj[k].key) {
          BeforeTransitive(m.key, head.key, obj[k].key);
        }
      } else {
        PutKeepsOrder(tail, m);
        OrderedCons(head, Put(tail, m));
      }
    }
  }

  /** A key later in sorting order that does not go before goes after. */
  lemma BeforeNext(k: Text, l: Text)
    requires Less(k, l)
    ensures (IsIndex(l) && Before(l, k)) || Before(k, l)
  {
    BeforeTotal(k, l);
    LessTotal(k, l);
  }

  lemma OrderedCons(head: Member, rest: seq<Member>)
    requires Ordered(rest) && forall x :: x in rest ==> Before(head.key, x.key)
    ensures Ordered([head] + rest)
  {
  }

  /** Building from ascending entries gives them back in enumeration order, less `__proto__`. */
  lemma {:induction false} BuildOrders(es: seq<Member>)
    requires Ascending(es)
    ensures Ordered(Build(es))
    ensures forall x :: x in Build(es) <==> x in es && x.key != PROTO
  {
    hide Less, Put, Ordered;
    if es == [] {
      assert Ordered(Build(es)) by { EmptyOrdered(); }
    } else {
      var front, last := es[..|es| - 1], es[|es| - 1];
      BuildOrders(front);
      assert es == front + [last];
      forall x | x in Build(front) ensures Less(x.key, last.key) {
        var q :| 0 <= q < |front| && front[q] == x;
        assert es[q] == x;
      }
      if last.key != PROTO {
        PutKeepsOrder(Build(front), last);
      }
    }
  }

  lemma EmptyOrdered()
    ensures Ordered([])
  {
  }

  /** The members that count, by key. */
  function Assoc(ms: seq<Member>): map<Text, Json> {
    if ms == [] then map[]
    else if ms[0].value.Undefined? then Assoc(ms[1..])
    else map[ms[0].key := ms[0].value] + Assoc(ms[1..])
  }

  ghost predicate HasKey(r: seq<Member>, k: Text) { exists x :: x in r && x.key == k }

  lemma {:induction false} AssocKeys(ms: seq<Member>)
    ensures forall k :: k in Assoc(ms) ==> HasKey(ms, k)
  {
    if ms != [] {
      AssocKeys(ms[1..]);
      assert ms == [ms[0]] + ms[1..];
      forall k | HasKey(ms[1..], k) || k == ms[0].key ensures HasKey(ms, k) {
        if k == ms[0].key {
          assert ms[0] in ms;
        } else {
          var x :| x in ms[1..] && x.key == k;
          assert x in ms;
        }
      }
    }
  }

  lemma {:induction false} AssocMembers(ms: seq<Member>)
    requires DistinctKeys(ms)
    ensures forall x :: x in ms && !x.value.Undefined? <==> x.key in Assoc(ms) && x.value == Assoc(ms)[x.key]
  {
    if ms != [] {
      var head, tail := ms[0], ms[1..];
      AssocMembers(tail);
      AssocKeys(tail);
      assert ms == [head] + tail;
    }
  }

  lemma {:induction false} DenoteByKey(ms: seq<Member>)
    ensures DenoteMembers(ms) == map k | k in Assoc(ms) :: Denote(Assoc(ms)[k])
  {
    if ms != [] {
      DenoteByKey(ms[1..]);
    }
  }

  lemma {:induction false} CanonicalMembersContent(ms: seq<Member>)
    requires DistinctKeys(ms)
    ensures DistinctKeys(CanonicalMembers(ms))
    ensures forall x :: x in CanonicalMembers(ms) <==>
                        x.key in Assoc(ms) && x.value == Canonicalize(Assoc(ms)[x.key])
  {
    hide Canonicalize;
    if ms != [] {
      CanonicalMembersContent(ms[1..]);
      AssocMembers(ms[1..]);
      assert ms == [ms[0]] + ms[1..];
      assert ms[0].key !in Assoc(ms[1..]) by { NotLater(ms); }
    }
  }

  lemma NotLater(ms: seq<Member>)
    requires ms != [] && DistinctKeys(ms)
    ensures ms[0].key !in Assoc(ms[1..])
  {
    AssocKeys(ms[1..]);
  }

  lemma {:induction false} AssocDefined(ms: seq<Member>)
    ensures forall k :: k in Assoc(ms) ==> !Assoc(ms)[k].Undefined?
  {
    if ms != [] {
      AssocDefined(ms[1..]);
    }
  }

  lemma NeverUndefined(j: Json)
    requires !j.Undefined?
    ensures !Canonicalize(j).Undefined?
  {
  }

  /** The canonical object, by content and by order. */
  lemma CanonicalObject(ms: seq<Member>) returns (r: seq<Member>)
    requires DistinctKeys(ms)
    ensures Canonicalize(Obj(ms)) == Obj(r)
    ensures Ordered(r)
    ensures forall x :: x in r <==>
                        x.key != PROTO && x.key in Assoc(ms) && x.value == Canonicalize(Assoc(ms)[x.key])
    ensures forall x :: x in r ==> !x.value.Undefined?
  {
    CanonicalMembersContent(ms);
    var es := SortedEntries(CanonicalMembers(ms));
    BuildOrders(es);
    r := Build(es);
    AssocDefined(ms);
    forall x | x in r ensures !x.value.Undefined? {
      NeverUndefined(Assoc(ms)[x.key]);
    }
  }

  lemma OrderedDistinct(ms: seq<Member>)
    requires Ordered(ms)
    ensures DistinctKeys(ms)
  {
    forall i, k | 0 <= i < k < |ms| ensures ms[i].key != ms[k].key {
      BeforeTotal(ms[i].key, ms[k].key);
    }
  }

  // ------------------------------------------------- what the text identifies

  /** The value without its `__proto__` members, at every depth. */
  function Strip(v: Value): Value {
    match v
    case VArr(vs) => VArr(StripAll(vs))
    case VObj(m) => VObj(map k | k in m && k != PROTO :: Strip(m[k]))
    case _ => v
  }

  function StripAll(vs: seq<Value>): (us: seq<Value>)
    ensures |us| == |vs| && forall i :: 0 <= i < |vs| ==> us[i] == Strip(vs[i])
  {
    if vs == [] then [] else [Strip(vs[0])] + StripAll(vs[1..])
  }

  lemma {:induction false} DenoteElements(xs: seq<Json>)
    ensures forall i :: 0 <= i < |xs| ==> DenoteAll(xs)[i] == Denote(xs[i])
  {
    if xs != [] {
      DenoteElements(xs[1..]);
    }
  }

  /** Canonicalising keeps what the data means, except for `__proto__` members. */
  lemma {:induction false} CanonicalMeaning(j: Json)
    requires Data(j)
    ensures Denote(Canonicalize(j)) == Strip(Denote(j))
    ensures WellFormed(Canonicalize(j))
    decreases j
  {
    match j
    case Arr(xs) =>
      forall i | 0 <= i < |xs|
        ensures Denote(Canonicalize(xs[i])) == Strip(Denote(xs[i])) && WellFormed(Canonicalize(xs[i]))
      {
        CanonicalMeaning(xs[i]);
      }
      DenoteElements(xs);
      DenoteElements(CanonicalAll(xs));
      assert DenoteAll(CanonicalAll(xs)) == StripAll(DenoteAll(xs));
    case Obj(ms) =>
      forall x | x in ms
        ensures Denote(Canonicalize(x.value)) == Strip(Denote(x.value)) && WellFormed(Canonicalize(x.value))
      {
        CanonicalMeaning(x.value);
      }
      ObjectMeaning(ms);
    case _ =>
  }

  lemma ObjectMeaning(ms: seq<Member>)
    requires DistinctKeys(ms)
    requires forall x :: x in ms ==>
                         Denote(Canonicalize(x.value)) == Strip(Denote(x.value)) && WellFormed(Canonicalize(x.value))
    ensures Denote(Canonicalize(Obj(ms))) == Strip(Denote(Obj(ms)))
    ensures WellFormed(Canonicalize(Obj(ms)))
  {
    hide Canonicalize, WellFormed, Denote, Strip, Ordered, DistinctKeys;
    var r := CanonicalObject(ms);
    ObjectWellFormed(ms, r);
    AssocMembers(ms);
    AssocDefined(ms);
    CanonicalAssoc(ms, r);
    DenoteByKey(ms);
    OrderedDistinct(r);
    DenoteByKey(r);
    forall k | k in Assoc(ms) ensures Denote(Canonicalize(Assoc(ms)[k])) == Strip(Denote(Assoc(ms)[k])) {
      assert Member(k, Assoc(ms)[k]) in ms;
    }
    MapMeaning(Assoc(ms), Assoc(r), DenoteMembers(ms), DenoteMembers(r));
    ObjectDenotes(ms);
    ObjectDenotes(r);
    ObjectStrips(DenoteMembers(ms));
  }

  lemma ObjectDenotes(ms: seq<Member>)
    ensures Denote(Obj(ms)) == VObj(DenoteMembers(ms))
  {
  }

  lemma ObjectStrips(m: map<Text, Value>)
    ensures Strip(VObj(m)) == VObj(map k | k in m && k != PROTO :: Strip(m[k]))
  {
  }

  lemma MapMeaning(m: map<Text, Json>, n: map<Text, Json>, p: map<Text, Value>, q: map<Text, Value>)
    requires n == map k | k in m && k != PROTO :: Canonicalize(m[k])
    requires p == map k | k in m :: Denote(m[k])
    requires q == map k | k in n :: Denote(n[k])
    requires forall k :: k in m ==> Denote(Canonicalize(m[k])) == Strip(Denote(m[k]))
    ensures q == map k | k in p && k != PROTO :: Strip(p[k])
  {
    hide Canonicalize, Denote, Strip;
  }

  lemma ObjectWellFormed(ms: seq<Member>, r: seq<Member>)
    requires DistinctKeys(ms) && forall x :: x in ms ==> WellFormed(Canonicalize(x.value))
    requires forall x :: x in r <==>
                         x.key != PROTO && x.key in Assoc(ms) && x.value == Canonicalize(Assoc(ms)[x.key])
    ensures WellFormed(Obj(r))
  {
    hide Canonicalize;
    AssocMembers(ms);
    forall x | x in r ensures WellFormed(x.value) {
      assert Member(x.key, Assoc(ms)[x.key]) in ms;
    }
  }

  lemma CanonicalAssoc(ms: seq<Member>, r: seq<Member>)
    requires Ordered(r) && forall x :: x in r ==> !x.value.Undefined?
    requires forall x :: x in r <==>
                         x.key != PROTO && x.key in Assoc(ms) && x.value == Canonicalize(Assoc(ms)[x.key])
    ensures Assoc(r) == map k | k in Assoc(ms) && k != PROTO :: Canonicalize(Assoc(ms)[k])
  {
    hide Canonicalize, Assoc, Ordered;
    OrderedDistinct(r);
    AssocMembers(r);
    AssocDefined(r);
    var m, n := Assoc(ms), Assoc(r);
    forall k ensures k in n <==> k in m && k != PROTO {
      assert k in n ==> Member(k, n[k]) in r;
      assert k in m && k != PROTO ==> Member(k, Canonicalize(m[k])) in r;
    }
    forall k | k in n ensures n[k] == Canonicalize(m[k]) {
      assert Member(k, n[k]) in r;
    }
  }

  /** Keys of an ordered object are determined by their set. */
  lemma {:induction false} OrderDeterminesKeys(r: seq<Member>, s: seq<Member>)
    requires Ordered(r) && Ordered(s)
    requires forall k :: HasKey(r, k) <==> HasKey(s, k)
    ensures |r| == |s| && forall i :: 0 <= i < |r| ==> r[i].key == s[i].key
  {
    hide Before;
    if r == [] || s == [] {
      assert r != [] ==> HasKey(r, r[0].key);
      assert s != [] ==> HasKey(s, s[0].key);
    } else {
      assert HasKey(s, s[0].key) && HasKey(r, r[0].key);
      FirstIsLeast(r, s[0].key);
      FirstIsLeast(s, r[0].key);
      BeforeTotal(r[0].key, s[0].key);
      forall k ensures HasKey(r[1..], k) <==> HasKey(s[1..], k) {
        TailKeys(r, k);
        TailKeys(s, k);
      }
      OrderDeterminesKeys(r[1..], s[1..]);
    }
  }

  lemma FirstIsLeast(r: seq<Member>, k: Text)
    requires Ordered(r) && HasKey(r, k)
    ensures r[0].key == k || Before(r[0].key, k)
  {
    var x :| x in r && x.key == k;
    var i :| 0 <= i < |r| && r[i] == x;
  }

  lemma TailKeys(r: seq<Member>, k: Text)
    requires Ordered(r) && r != []
    ensures HasKey(r[1..], k) <==> HasKey(r, k) && k != r[0].key
  {
    OrderedDistinct(r);
    assert r == [r[0]] + r[1..];
    if HasKey(r, k) && k != r[0].key {
      var x :| x in r && x.key == k;
      assert x in r[1..];
    }
    if HasKey(r[1..], k) {
      var x :| x in r[1..] && x.key == k;
      assert x in r;
    }
  }

  lemma {:induction false} SameElementsText(xs: seq<Json>, ys: seq<Json>, first: bool)
    requires |xs| == |ys| && forall i :: 0 <= i < |xs| ==> Stringify(xs[i]) == Stringify(ys[i])
    ensures Elements(xs, first) == Elements(ys, first)
  {
    hide Stringify;
    if xs != [] {
      SameElementsText(xs[1..], ys[1..], false);
    }
  }

  lemma {:induction false} SameMembersText(r: seq<Member>, s: seq<Member>, first: bool)
    requires |r| == |s|
    requires forall i :: 0 <= i < |r| ==>
      r[i].key == s[i].key && !r[i].value.Undefined? && !s[i].value.Undefined?
      && Stringify(r[i].value) == Stringify(s[i].value)
    ensures Members(r, first) == Members(s, first)
  {
    hide Stringify, Quote;
    if r != [] {
      SameMembersText(r[1..], s[1..], false);
    }
  }

  /** Data that means the same, `__proto__` aside, has the same canonical text. */
  lemma {:induction false} SameMeaningSameText(a: Json, b: Json)
    requires Data(a) && Data(b) && Strip(Denote(a)) == Strip(Denote(b))
    ensures CanonicalText(a) == CanonicalText(b)
    decreases a
  {
    match (a, b)
    case (Arr(xs), Arr(ys)) =>
      SameStrippedElements(xs, ys);
      forall i | 0 <= i < |xs| ensures CanonicalText(xs[i]) == CanonicalText(ys[i]) {
        SameMeaningSameText(xs[i], ys[i]);
      }
      SameElementsText(CanonicalAll(xs), CanonicalAll(ys), true);
    case (Obj(ms), Obj(ns)) =>
      forall x, y | x in ms && y in ns && Strip(Denote(x.value)) == Strip(Denote(y.value))
        ensures CanonicalText(x.value) == CanonicalText(y.value)
      {
        SameMeaningSameText(x.value, y.value);
      }
      SameObjectText(ms, ns);
    case _ =>
  }

  lemma SameStrippedElements(xs: seq<Json>, ys: seq<Json>)
    requires Strip(Denote(Arr(xs))) == Strip(Denote(Arr(ys)))
    ensures |xs| == |ys| && forall i :: 0 <= i < |xs| ==> Strip(Denote(xs[i])) == Strip(Denote(ys[i]))
  {
    hide Denote, Strip;
    assert StripAll(DenoteAll(xs)) == StripAll(DenoteAll(ys)) by { StrippedArray(xs); StrippedArray(ys); }
    DenoteElements(xs);
    DenoteElements(ys);
    forall i | 0 <= i < |xs| ensures Strip(Denote(xs[i])) == Strip(Denote(ys[i])) {
      assert StripAll(DenoteAll(xs))[i] == StripAll(DenoteAll(ys))[i];
    }
  }

  lemma StrippedArray(xs: seq<Json>)
    ensures Strip(Denote(Arr(xs))) == VArr(StripAll(DenoteAll(xs)))
  {
  }

  /** The keys of a canonical object. */
  lemma CanonicalKeys(m: map<Text, Json>, r: seq<Member>)
    requires forall x :: x in r <==> x.key != PROTO && x.key in m && x.value == Canonicalize(m[x.key])
    ensures forall k :: HasKey(r, k) <==> k in m && k != PROTO
  {
    hide Canonicalize;
    forall k ensures HasKey(r, k) <==> k in m && k != PROTO {
      if k in m && k != PROTO {
        assert Member(k, Canonicalize(m[k])) in r;
      }
    }
  }

  lemma SameObjectText(ms: seq<Member>, ns: seq<Member>)
    requires DistinctKeys(ms) && DistinctKeys(ns) && Strip(Denote(Obj(ms))) == Strip(Denote(Obj(ns)))
    requires forall x, y :: x in ms && y in ns && Strip(Denote(x.value)) == Strip(Denote(y.value))
                            ==> CanonicalText(x.value) == CanonicalText(y.value)
    ensures CanonicalText(Obj(ms)) == CanonicalText(Obj(ns))
  {
    hide Canonicalize, Strip, Denote, HasKey, Ordered, DistinctKeys, Stringify;
    var r := CanonicalObject(ms);
    var s := CanonicalObject(ns);
    var m, n := Assoc(ms), Assoc(ns);
    AssocMembers(ms);
    AssocMembers(ns);
    AssocDefined(ms);
    AssocDefined(ns);
    DenoteByKey(ms);
    DenoteByKey(ns);
    ObjectDenotes(ms);
    ObjectDenotes(ns);
    SameStripped(m, n, DenoteMembers(ms), DenoteMembers(ns));
    CanonicalKeys(m, r);
    CanonicalKeys(n, s);
    OrderDeterminesKeys(r, s);
    forall i | 0 <= i < |r| ensures Stringify(r[i].value) == Stringify(s[i].value) {
      var k := r[i].key;
      assert r[i] in r && s[i] in s;
      assert Member(k, m[k]) in ms && Member(k, n[k]) in ns;
    }
    SameMembersText(r, s, true);
    ObjectText(r);
    ObjectText(s);
  }

  lemma ObjectText(r: seq<Member>)
    ensures Stringify(Obj(r)) == [123] + (Members(r, true) + [125])
  {
  }

  lemma SameStripped(m: map<Text, Json>, n: map<Text, Json>, p: map<Text, Value>, q: map<Text, Value>)
    requires p == map k | k in m :: Denote(m[k])
    requires q == map k | k in n :: Denote(n[k])
    requires Strip(VObj(p)) == Strip(VObj(q))
    ensures forall k :: k != PROTO ==> (k in m <==> k in n)
    ensures forall k :: k != PROTO && k in m ==> Strip(Denote(m[k])) == Strip(Denote(n[k]))
  {
    hide Denote;
    var u := map k | k in p && k != PROTO :: Strip(p[k]);
    var v := map k | k in q && k != PROTO :: Strip(q[k]);
    assert u == v;
    assert forall k :: k in u <==> k in m && k != PROTO;
    assert forall k :: k in v <==> k in n && k != PROTO;
  }

  /** Two contracts have the same canonical text exactly when they are equal up to
      key order and undefined members, `__proto__` members aside. */
  lemma TextIdentifies(a: Json, b: Json)
    requires Data(a) && Data(b)
    ensures CanonicalText(a) == CanonicalText(b) <==> Strip(Denote(a)) == Strip(Denote(b))
  {
    hide Canonicalize;
    CanonicalMeaning(a);
    CanonicalMeaning(b);
    ParseStringify(Canonicalize(a));
    ParseStringify(Canonicalize(b));
    if Strip(Denote(a)) == Strip(Denote(b)) {
      SameMeaningSameText(a, b);
    }
  }

  /** The documented reading, key order and undefined members only, holds of a
      contract exactly when it has no `__proto__` member. */
  predicate ProtoFree(v: Value) {
    match v
    case VArr(vs) => forall i :: 0 <= i < |vs| ==> ProtoFree(vs[i])
    case VObj(m) => PROTO !in m && forall k :: k in m ==> ProtoFree(m[k])
    case _ => true
  }

  lemma {:induction false} StripKeepsProtoFree(v: Value)
    ensures Strip(v) == v <==> ProtoFree(v)
  {
    match v
    case VArr(vs) =>
      forall i | 0 <= i < |vs| ensures Strip(vs[i]) == vs[i] <==> ProtoFree(vs[i]) {
        StripKeepsProtoFree(vs[i]);
      }
      assert Strip(v) == v <==> StripAll(vs) == vs;
    case VObj(m) =>
      forall k | k in m ensures Strip(m[k]) == m[k] <==> ProtoFree(m[k]) {
        StripKeepsProtoFree(m[k]);
      }
      var u := map k | k in m && k != PROTO :: Strip(m[k]);
      assert Strip(v) == VObj(u);
      if ProtoFree(v) {
        assert u == m;
      }
      if u == m {
        forall k | k in m ensures k != PROTO && Strip(m[k]) == m[k] {
          assert k in u;
        }
      }
    case _ =>
  }

  /** The canonical form stands for the contract itself, rather than for less,
      exactly when the contract has no `__proto__` member at any depth. */
  lemma FaithfulIffProtoFree(a: Json)
    requires Data(a)
    ensures Denote(Canonicalize(a)) == Denote(a) <==> ProtoFree(Denote(a))
  {
    CanonicalMeaning(a);
    StripKeepsProtoFree(Denote(a));
  }

  /** Two contracts that differ by a `__proto__` member only have one text, whatever its value. */
  lemma ProtoIsLost(v: Json)
    requires Data(v) && !v.Undefined?
    ensures var a, b := Obj([Member(PROTO, v)]), Obj([]);
            Data(a) && Data(b) && Denote(a) != Denote(b) && CanonicalText(a) == CanonicalText(b)
  {
    var a, b := Obj([Member(PROTO, v)]), Obj([]);
    hide CanonicalText;
    assert [Member(PROTO, v)][1..] == [] && DenoteMembers([]) == map[];
    assert DenoteMembers([Member(PROTO, v)]) == map[PROTO := Denote(v)];
    assert PROTO in DenoteMembers([Member(PROTO, v)]);
    assert Strip(Denote(a)) == VObj(map[]) == Strip(Denote(b));
    TextIdentifies(a, b);
  }

  /** On contracts without `__proto__` members the text is equality up to key order. */
  lemma ProtoFreeTextIdentifies(a: Json, b: Json)
    requires Data(a) && Data(b) && ProtoFree(Denote(a)) && ProtoFree(Denote(b))
    ensures CanonicalText(a) == CanonicalText(b) <==> Denote(a) == Denote(b)
  {
    TextIdentifies(a, b);
    StripKeepsProtoFree(Denote(a));
    StripKeepsProtoFree(Denote(b));
  }

  // ------------------------------------------------------------ idempotence

  lemma {:induction false} OrderedSame(r: seq<Member>, s: seq<Member>)
    requires Ordered(r) && Ordered(s) && forall x :: x in r <==> x in s
    ensures r == s
  {
    hide Before;
    OrderDeterminesKeys(r, s);
    OrderedDistinct(s);
    forall i | 0 <= i < |r| ensures r[i] == s[i] {
      assert r[i] in s;
      var j :| 0 <= j < |s| && s[j] == r[i];
    }
  }

  lemma {:induction false} FixedMembers(r: seq<Member>)
    requires forall x :: x in r ==> !x.value.Undefined? && Canonicalize(x.value) == x.value
    ensures CanonicalMembers(r) == r
  {
    hide Canonicalize;
    if r != [] {
      assert r == [r[0]] + r[1..];
      FixedMembers(r[1..]);
    }
  }

  /** Canonicalising twice is canonicalising once. */
  lemma {:induction false} CanonicalizeIdempotent(j: Json)
    requires Data(j)
    ensures Canonicalize(Canonicalize(j)) == Canonicalize(j)
    decreases j
  {
    match j
    case Arr(xs) =>
      forall i | 0 <= i < |xs| ensures Canonicalize(Canonicalize(xs[i])) == Canonicalize(xs[i]) {
        CanonicalizeIdempotent(xs[i]);
      }
      assert CanonicalAll(CanonicalAll(xs)) == CanonicalAll(xs);
    case Obj(ms) =>
      forall x | x in ms ensures Canonicalize(Canonicalize(x.value)) == Canonicalize(x.value) {
        CanonicalizeIdempotent(x.value);
      }
      ObjectIdempotent(ms);
    case _ =>
  }

  lemma ObjectIdempotent(ms: seq<Member>)
    requires DistinctKeys(ms)
    requires forall x :: x in ms ==> Canonicalize(Canonicalize(x.value)) == Canonicalize(x.value)
    ensures Canonicalize(Canonicalize(Obj(ms))) == Canonicalize(Obj(ms))
  {
    var r := CanonicalObject(ms);
    AssocMembers(ms);
    AssocDefined(ms);
    forall x | x in r ensures Canonicalize(x.value) == x.value {
      assert Member(x.key, Assoc(ms)[x.key]) in ms;
    }
    FixedMembers(r);
    OrderedDistinct(r);
    var es := SortedEntries(r);
    BuildOrders(es);
    OrderedSame(Build(es), r);
  }

  // ------------------------------------------------------------ as a loop

  function Defined(ms: seq<Member>): seq<Member> {
    if ms == [] then []
    else if ms[0].value.Undefined? then Defined(ms[1..])
    else [ms[0]] + Defined(ms[1..])
  }

  function CanonicalValues(ms: seq<Member>): (r: seq<Member>)
    ensures |r| == |ms| && forall i :: 0 <= i < |ms| ==> r[i] == Member(ms[i].key, Canonicalize(ms[i].value))
  {
    if ms == [] then [] else [Member(ms[0].key, Canonicalize(ms[0].value))] + CanonicalValues(ms[1..])
  }

  lemma {:induction false} DefinedFirst(ms: seq<Member>)
    ensures CanonicalMembers(ms) == CanonicalValues(Defined(ms))
    ensures forall x :: x in Defined(ms) ==> x in ms
  {
    if ms != [] {
      DefinedFirst(ms[1..]);
      assert ms == [ms[0]] + ms[1..];
    }
  }

  lemma {:induction false} InsertValues(m: Member, ms: seq<Member>)
    ensures StableSort.Insert(Member(m.key, Canonicalize(m.value)), CanonicalValues(ms), KeyLeq)
            == CanonicalValues(StableSort.Insert(m, ms, KeyLeq))
  {
    hide Canonicalize;
    if ms != [] {
      InsertValues(m, ms[1..]);
      assert CanonicalValues(ms)[1..] == CanonicalValues(ms[1..]);
    }
  }

  /** Sorting by key before or after canonicalising the values is the same. */
  lemma {:induction false} SortValues(ms: seq<Member>)
    ensures StableSort.Sort(CanonicalValues(ms), KeyLeq) == CanonicalValues(StableSort.Sort(ms, KeyLeq))
  {
    hide Canonicalize;
    if ms != [] {
      SortValues(ms[1..]);
      InsertValues(ms[0], StableSort.Sort(ms[1..], KeyLeq));
      assert CanonicalValues(ms)[1..] == CanonicalValues(ms[1..]);
    }
  }

  /** The code's own order of work: filter, sort, then assign one by one. */
  method CanonicalizeByAssignment(value: Json) returns (r: Json)
    ensures r == Canonicalize(value)
    decreases value, 1
  {
    match value
    case Arr(xs) =>
      var ys: seq<Json> := [];
      for i := 0 to |xs|
        invariant |ys| == i && forall k :: 0 <= k < i ==> ys[k] == Canonicalize(xs[k])
      {
        var y := CanonicalizeByAssignment(xs[i]);
        ys := ys + [y];
      }
      assert ys == CanonicalAll(xs);
      r := Arr(ys);
    case Obj(ms) =>
      var members := AssignMembers(value, StableSort.Sort(Defined(ms), KeyLeq));
      r := Obj(members);
    case _ => r := value;
  }

  method AssignMembers(value: Json, entries: seq<Member>) returns (result: seq<Member>)
    requires value.Obj? && entries == StableSort.Sort(Defined(value.members), KeyLeq)
    ensures Obj(result) == Canonicalize(value)
    decreases value, 0
  {
    hide StableSort.Sort, Assign, KeyLeq, Defined;
    DefinedFirst(value.members);
    SortValues(Defined(value.members));
    SortKeeps(Defined(value.members));
    ghost var done := CanonicalValues(entries);
    result := [];
    for i := 0 to |entries|
      invariant result == Build(done[..i])
    {
      assert entries[i] in entries;
      var v := CanonicalizeByAssignment(entries[i].value);
      BuildStep(done, i);
      result := Assign(result, Member(entries[i].key, v));
    }
    assert done[..|entries|] == done;
  }

  lemma BuildStep(es: seq<Member>, i: int)
    requires 0 <= i < |es|
    ensures Build(es[..i + 1]) == Assign(Build(es[..i]), es[i])
  {
    assert es[..i + 1][..i] == es[..i];
  }

  lemma SortKeeps(ms: seq<Member>)
    ensures forall x :: x in StableSort.Sort(ms, KeyLeq) ==> x in ms
  {
    KeyLeqIsPreorder();
    StableSort.SortSorts(ms, KeyLeq);
    StableSort.SameElements(StableSort.Sort(ms, KeyLeq), ms);
  }

  // ------------------------------------------------------------ the hash

  ghost predicate CollisionFree<D(!new)>(hash: Text -> D) {
    forall s, t :: hash(s) == hash(t) ==> s == t
  }

  function ComputeContractHash<D>(contract: Json, hash: Text -> D): D { hash(CanonicalText(contract)) }

  /** Equal hashes are equal contracts, as far as SHA-256 has no collisions. */
  lemma HashIdentifies<D(!new)>(a: Json, b: Json, hash: Text -> D)
    requires Data(a) && Data(b) && CollisionFree(hash)
    ensures ComputeContractHash(a, hash) == ComputeContractHash(b, hash) <==> Strip(Denote(a)) == Strip(Denote(b))
  {
    TextIdentifies(a, b);
  }
}
