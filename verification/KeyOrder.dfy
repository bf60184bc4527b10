/** The order of the keys in a canonical text, said of their characters. */
module KeyOrder {
  import opened JsText
  import opened Json

  /** In either order the two fields come out with `a` first. */
  ghost predicate GoesFirst(a: Text, b: Text) {
    forall v, w ::
      && Canonicalize(Obj(Field(b, w, Field(a, v, NoFields)))) == Obj(Field(a, Canonicalize(v), Field(b, Canonicalize(w), NoFields)))
      && Canonicalize(Obj(Field(a, v, Field(b, w, NoFields)))) == Obj(Field(a, Canonicalize(v), Field(b, Canonicalize(w), NoFields)))
  }

  predicate DiffersUpwards(a: Text, b: Text, i: nat) { i < |a| && i < |b| && a[..i] == b[..i] && a[i] < b[i] }

  lemma LessGoesFirst(a: Text, b: Text)
    requires KeyLess(a, b)
    ensures GoesFirst(a, b)
  {
    KeyLessTotal(a, b);
    hide KeyLess;
    forall v, w ensures
        && Canonicalize(Obj(Field(b, w, Field(a, v, NoFields)))) == Obj(Field(a, Canonicalize(v), Field(b, Canonicalize(w), NoFields)))
        && Canonicalize(Obj(Field(a, v, Field(b, w, NoFields)))) == Obj(Field(a, Canonicalize(v), Field(b, Canonicalize(w), NoFields))) {
      TwoSorted(a, b, v, w);
    }
  }

  lemma TwoSorted(a: Text, b: Text, v: Json, w: Json)
    requires KeyLess(a, b) && !KeyLess(b, a)
    ensures CanonicalFields(Field(b, w, Field(a, v, NoFields))) == Field(a, Canonicalize(v), Field(b, Canonicalize(w), NoFields))
    ensures CanonicalFields(Field(a, v, Field(b, w, NoFields))) == Field(a, Canonicalize(v), Field(b, Canonicalize(w), NoFields))
  {
    hide KeyLess;
    assert CanonicalFields(NoFields) == NoFields;
    assert CanonicalFields(Field(a, v, NoFields)) == Field(a, Canonicalize(v), NoFields);
    assert CanonicalFields(Field(b, w, NoFields)) == Field(b, Canonicalize(w), NoFields);
  }

  /** Of two names that begin with no digit the one that ends first goes first, or the one with
      the smaller code unit where they first differ. */
  lemma NamesInOrder(a: Text, b: Text, i: nat)
    requires a != [] && b != [] && !IsDigit(a[0]) && !IsDigit(b[0])
    requires DiffersUpwards(a, b, i) || (|a| < |b| && a == b[..|a|])
    ensures GoesFirst(a, b)
  {
    FirstDifference(a, b, if DiffersUpwards(a, b, i) then i else |a|);
    LessGoesFirst(a, b);
  }

  lemma {:induction false} FirstDifference(a: Text, b: Text, i: nat)
    requires i <= |a| && i < |b| && a[..i] == b[..i] && (i == |a| || a[i] < b[i])
    ensures TextLess(a, b)
  {
    if i > 0 {
      assert a[0] == a[..i][0] == b[..i][0] == b[0];
      assert a[1..][..i - 1] == a[..i][1..] == b[..i][1..] == b[1..][..i - 1];
      FirstDifference(a[1..], b[1..], i - 1);
    }
  }

  /** Decimal numbers of up to nine digits go before names, and among themselves by value:
      fewer digits first, or the smaller digit where they first differ. */
  lemma NumbersInOrder(a: Text, b: Text, i: nat)
    requires IsDecimal(a) && |a| <= 9 && b != []
    requires !IsDigit(b[0]) || (IsDecimal(b) && |b| <= 9 && (|a| < |b| || (|a| == |b| && DiffersUpwards(a, b, i))))
    ensures GoesFirst(a, b)
  {
    ShortIsIndex(a);
    if IsDigit(b[0]) {
      ShortIsIndex(b);
      if |a| < |b| { ShorterIsLess(a, b); } else { FirstDigitDecides(a, b, i); }
    }
    LessGoesFirst(a, b);
  }

  function Power(n: nat): nat { if n == 0 then 1 else 10 * Power(n - 1) }

  lemma {:induction false} BelowPower(k: Text)
    requires forall i :: 0 <= i < |k| ==> IsDigit(k[i])
    ensures DecimalValue(k) < Power(|k|)
  {
    if k != [] { BelowPower(k[..|k| - 1]); }
  }

  lemma {:induction false} PowerGrows(m: nat, n: nat)
    requires m <= n
    ensures 1 <= Power(m) <= Power(n)
  {
    if m < n { PowerGrows(m, n - 1); } else if m > 0 { PowerGrows(m - 1, m - 1); }
  }

  lemma ShortIsIndex(k: Text)
    requires IsDecimal(k) && |k| <= 9
    ensures IsArrayIndex(k)
  {
    BelowPower(k);
    PowerGrows(|k|, 9);
    assert Power(3) == 1000;
    assert Power(6) == 1000000;
    assert Power(9) == 1000000000;
  }

  lemma {:induction false} ShorterIsLess(a: Text, b: Text)
    requires IsDecimal(a) && IsDecimal(b) && |a| < |b|
    ensures DecimalValue(a) < DecimalValue(b)
  {
    var a', b' := a[..|a| - 1], b[..|b| - 1];
    if a' == [] {
      DecimalPositive(b');
    } else {
      ShorterIsLess(a', b');
    }
  }

  lemma {:induction false} FirstDigitDecides(a: Text, b: Text, i: nat)
    requires (forall j :: 0 <= j < |a| ==> IsDigit(a[j])) && forall j :: 0 <= j < |b| ==> IsDigit(b[j])
    requires |a| == |b| && DiffersUpwards(a, b, i)
    ensures DecimalValue(a) < DecimalValue(b)
  {
    var n := |a| - 1;
    if i < n {
      assert a[..n][..i] == a[..i] && b[..n][..i] == b[..i];
      FirstDigitDecides(a[..n], b[..n], i);
    }
  }
}
