/** data-product-catalog-service/src/registration/contract-hash.ts: the canonical text member by
    member, and which keys JavaScript enumerates first. */
module HashText {
  import opened Json
  import opened CanonicalJson
  import Decimal

  // ------------------------------------------------------------ runs of digits as numbers

  predicate Digits(k: Text) { k != [] && forall i :: 0 <= i < |k| ==> 48 <= k[i] <= 57 }

  /** Digits as a number is written: no leading zero. */
  predicate Written(k: Text) { Digits(k) && (|k| > 1 ==> k[0] != 48) }

  function NumberOf(k: Text): nat
    requires forall i :: 0 <= i < |k| ==> 48 <= k[i] <= 57
  {
    if k == [] then 0 else 10 * NumberOf(k[..|k| - 1]) + (k[|k| - 1] - 48)
  }

  function Ten(n: nat): nat { if n == 0 then 1 else 10 * Ten(n - 1) }

  lemma {:induction false} TenGrows(m: nat, n: nat)
    requires m <= n
    ensures 1 <= Ten(m) <= Ten(n)
    decreases n
  {
    if m < n {
      TenGrows(m, n - 1);
    } else if n > 0 {
      TenGrows(n - 1, n - 1);
    }
  }

  lemma {:induction false} NumberBounds(k: Text)
    requires Digits(k)
    ensures NumberOf(k) < Ten(|k|) && (k[0] != 48 ==> Ten(|k| - 1) <= NumberOf(k))
  {
    var front := k[..|k| - 1];
    if front != [] {
      NumberBounds(front);
    }
  }

  /** A last unit more. */
  lemma {:induction false} LessSnoc(a: Text, b: Text, x: Unit, y: Unit)
    requires |a| == |b|
    ensures Less(a + [x], b + [y]) <==> Less(a, b) || (a == b && x < y)
  {
    if a != [] {
      LessSnoc(a[1..], b[1..], x, y);
      assert (a + [x])[1..] == a[1..] + [x] && (b + [y])[1..] == b[1..] + [y];
      assert a == [a[0]] + a[1..] && b == [b[0]] + b[1..];
    }
  }

  lemma {:induction false} LessIsNumber(a: Text, b: Text)
    requires |a| == |b| && (a != [] ==> Digits(a) && Digits(b))
    ensures Less(a, b) <==> NumberOf(a) < NumberOf(b)
    ensures a == b <==> NumberOf(a) == NumberOf(b)
  {
    hide Less;
    if a == [] {
      LessTotal(a, b);
    } else {
      var n := |a| - 1;
      var c, d := a[..n], b[..n];
      LessIsNumber(c, d);
      LessSnoc(c, d, a[n], b[n]);
      assert a == c + [a[n]] && b == d + [b[n]];
    }
  }

  /** Index keys enumerate by number. */
  lemma NumberLessIs(k: Text, l: Text)
    requires Written(k) && Written(l)
    ensures NumberLess(k, l) <==> NumberOf(k) < NumberOf(l)
  {
    hide Less;
    NumberBounds(k);
    NumberBounds(l);
    if |k| == |l| {
      LessIsNumber(k, l);
    } else if |k| < |l| {
      TenGrows(|k|, |l| - 1);
    } else {
      TenGrows(|l|, |k| - 1);
    }
  }

  lemma Snoc(k: Text, x: Unit)
    requires k == [] || Digits(k)
    requires 48 <= x <= 57
    ensures Digits(k + [x]) && NumberOf(k + [x]) == 10 * NumberOf(k) + (x - 48)
  {
    assert (k + [x])[..|k|] == k;
  }

  /** The first five digits. */
  lemma FirstFive(k: Text)
    requires k == [52] + [50] + [57] + [52] + [57]
    ensures Digits(k) && NumberOf(k) == 42_949
  {
    hide Digits, NumberOf;
    assert NumberOf([]) == 0 by {
      NumberOfNothing([]);
    }
    Snoc([], 52);
    assert [] + [52] == [52];
    Snoc([52], 50);
    Snoc([52] + [50], 57);
    Snoc([52] + [50] + [57], 52);
    Snoc([52] + [50] + [57] + [52], 57);
  }

  lemma NumberOfNothing(k: Text)
    requires k == []
    ensures NumberOf(k) == 0
  {
  }

  lemma LastIndex(k: Text)
    requires k == LAST_INDEX
    ensures Digits(k) && NumberOf(k) == 4_294_967_294 && |k| == 10
  {
    hide Digits, NumberOf;
    var five := [52] + [50] + [57] + [52] + [57];
    FirstFive(five);
    Snoc(five, 54);
    Snoc(five + [54], 55);
    Snoc(five + [54] + [55], 50);
    Snoc(five + [54] + [55] + [50], 57);
    Snoc(five + [54] + [55] + [50] + [57], 52);
    assert k == five + [54] + [55] + [50] + [57] + [52];
  }

  lemma TenthPower()
    ensures Ten(9) == 1_000_000_000 && Ten(10) == 10_000_000_000
  {
    assert Ten(3) == 1000;
    assert Ten(6) == 1_000_000;
    assert Ten(9) == 1_000_000_000;
  }

  /** An index key is a number from 0 to 2^32 - 2 as it is written. */
  lemma IndexIff(k: Text)
    ensures IsIndex(k) <==> Written(k) && NumberOf(k) <= 4_294_967_294
  {
    hide Less, NumberOf, Ten;
    TenthPower();
    LastIndex(LAST_INDEX);
    if Written(k) {
      NumberBounds(k);
      if |k| < 10 {
        TenGrows(|k|, 9);
      } else if |k| > 10 {
        TenGrows(10, |k| - 1);
      } else {
        LessIsNumber(LAST_INDEX, k);
      }
    }
  }

  // ------------------------------------------------------------ the text of an object

  /** The one key that is dropped. */
  lemma ProtoIs()
    ensures PROTO == Units("__proto__")
  {
  }

  /** Which of two keys is printed first: numbers that index before all others, by size, the
      others by code unit. */
  predicate PrintedBefore(k: Text, l: Text) {
    if Written(k) && NumberOf(k) <= 4_294_967_294
    then !(Written(l) && NumberOf(l) <= 4_294_967_294) || NumberOf(k) < NumberOf(l)
    else !(Written(l) && NumberOf(l) <= 4_294_967_294) && Less(k, l)
  }

  lemma BeforeIs(k: Text, l: Text)
    ensures Before(k, l) <==> PrintedBefore(k, l)
  {
    hide Less, NumberOf, IsIndex, NumberLess;
    IndexIff(k);
    IndexIff(l);
    if Written(k) && Written(l) {
      NumberLessIs(k, l);
    }
  }

  /** The member an object's canonical form has under a key, if it has one. */
  predicate Kept(ms: seq<Member>, x: Member) {
    x.key != PROTO && exists m :: m in ms && m.key == x.key && !m.value.Undefined? && x.value == Canonicalize(m.value)
  }

  /** An object prints as its defined members but `__proto__`, canonical in turn, in that order;
      an array as its elements in their own. */
  lemma ObjectPrints(ms: seq<Member>) returns (r: seq<Member>)
    requires DistinctKeys(ms)
    ensures CanonicalText(Obj(ms)) == [123] + Commas(Fields(r)) + [125]
    ensures forall x :: x in r <==> Kept(ms, x)
    ensures forall i, j :: 0 <= i < j < |r| ==> PrintedBefore(r[i].key, r[j].key)
  {
    hide Canonicalize, Stringify, Less, PrintedBefore, Before;
    r := CanonicalObject(ms);
    CompactText([], r);
    forall i, j | 0 <= i < j < |r| ensures PrintedBefore(r[i].key, r[j].key) {
      BeforeIs(r[i].key, r[j].key);
    }
    forall x ensures x in r <==> Kept(ms, x) {
      AssocIs(ms, x.key);
    }
  }

  lemma AssocIs(ms: seq<Member>, key: Text)
    requires DistinctKeys(ms)
    ensures key in Assoc(ms) <==> exists m :: m in ms && m.key == key && !m.value.Undefined?
    ensures forall m :: m in ms && m.key == key && !m.value.Undefined? ==> key in Assoc(ms) && Assoc(ms)[key] == m.value
  {
    hide Assoc, DistinctKeys;
    AssocMembers(ms);
    assert key in Assoc(ms) ==> Member(key, Assoc(ms)[key]) in ms;
  }

  lemma ArrayPrints(xs: seq<Json>) returns (ys: seq<Json>)
    ensures CanonicalText(Arr(xs)) == [91] + Commas(Texts(ys)) + [93]
    ensures |ys| == |xs| && forall i :: 0 <= i < |xs| ==> ys[i] == Canonicalize(xs[i])
  {
    hide Stringify;
    ys := CanonicalAll(xs);
    CompactText(ys, []);
  }

  /** Everything else prints as JSON.stringify prints it, a number as its notation. */
  lemma LeafPrints(j: Json)
    requires !j.Obj? && !j.Arr?
    ensures CanonicalText(j) == Stringify(j) && (j.Num? ==> CanonicalText(j) == j.notation)
  {
  }

  /** Every whole number's text is a notation a contract may hold. */
  lemma WholeNumber(n: int)
    ensures forall i :: 0 <= i < |Decimal.Text(n)| ==> Decimal.Text(n)[i] < 128 as char
    ensures Notation(Units(Decimal.Text(n)))
  {
    hide Decimal.Digits, Units;
    UnitsAre(Decimal.Text(n));
  }

  lemma UnitsAre(s: string)
    requires forall i :: 0 <= i < |s| ==> s[i] < 128 as char
    ensures |Units(s)| == |s| && forall i :: 0 <= i < |s| ==> Units(s)[i] == s[i] as int
  {
  }
}
