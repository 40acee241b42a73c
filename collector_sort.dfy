/** The order inside a rarity bucket: ascending by the number formed from the digits
    of the collector number (non-digits removed, no digits at all reading as 0).
    The engine's array sort is stable, so cards with equal keys keep their order. */
module CollectorSort {
  import opened Cards
  import opened StableSort

  predicate IsDigit(c: char)
  {
    '0' <= c <= '9'
  }

  /** The digits of `s`, in order, every other character removed. */
  function DigitsOf(s: string): (ds: string)
    ensures |ds| <= |s|
    ensures forall i :: 0 <= i < |ds| ==> IsDigit(ds[i]) && ds[i] in s
    ensures forall i :: 0 <= i < |s| && IsDigit(s[i]) ==> s[i] in ds
  {
    if s == [] then []
    else
      var init, last := s[..|s| - 1], s[|s| - 1];
      assert s == init + [last];
      DigitsOf(init) + (if IsDigit(last) then [last] else [])
  }

  /** Removing non-digits works piecewise: the digits of a concatenation are the
      digits of each piece, in order; a digit string is kept whole. */
  lemma {:induction false} DigitsOfAppend(s: string, t: string)
    ensures DigitsOf(s + t) == DigitsOf(s) + DigitsOf(t)
    ensures (forall i :: 0 <= i < |t| ==> IsDigit(t[i])) ==> DigitsOf(t) == t
    decreases |t|
  {
    if t == [] {
      assert s + t == s;
    } else {
      var init, last := t[..|t| - 1], t[|t| - 1];
      assert s + t == (s + init) + [last];
      assert t == init + [last];
      DigitsOfAppend(s, init);
    }
  }

  /** The value of a string of decimal digits; the empty string, which the source
      parses as NaN and then replaces by 0, reads as 0. */
  function DecimalValue(ds: string): nat
    requires forall i :: 0 <= i < |ds| ==> IsDigit(ds[i])
  {
    if ds == [] then 0
    else
      assert IsDigit(ds[|ds| - 1]);
      10 * DecimalValue(ds[..|ds| - 1]) + (ds[|ds| - 1] as int - '0' as int)
  }

  /** The sort key of a card. It is 0 exactly when every digit of the collector
      number is a zero, no digits at all included. */
  function CollectorKey(card: Card): (k: nat)
    ensures k == 0 <==> ZeroDigitsOnly(card.collectorNumber)
  {
    DigitsAllZero(card.collectorNumber);
    DecimalZero(DigitsOf(card.collectorNumber));
    DecimalValue(DigitsOf(card.collectorNumber))
  }

  /** A digit string has value 0 exactly when all its digits are zeros. */
  lemma {:induction false} DecimalZero(ds: string)
    requires forall i :: 0 <= i < |ds| ==> IsDigit(ds[i])
    ensures DecimalValue(ds) == 0 <==> ZeroDigitsOnly(ds)
  {
    if ds != [] {
      var init := ds[..|ds| - 1];
      DecimalZero(init);
      assert ZeroDigitsOnly(ds) <==> ZeroDigitsOnly(init) && ds[|ds| - 1] == '0' by {
        assert forall i :: 0 <= i < |init| ==> init[i] == ds[i];
      }
    }
  }

  /** Every digit of `s` is a zero (vacuously so when `s` has none). */
  predicate ZeroDigitsOnly(s: string)
  {
    forall i :: 0 <= i < |s| && IsDigit(s[i]) ==> s[i] == '0'
  }

  /** The digits kept are all zeros exactly when every digit of `s` is a zero. */
  lemma DigitsAllZero(s: string)
    ensures ZeroDigitsOnly(DigitsOf(s)) <==> ZeroDigitsOnly(s)
  {
    var ds := DigitsOf(s);
    if ZeroDigitsOnly(s) {
      forall i | 0 <= i < |ds|
        ensures ds[i] == '0'
      {
        var j :| 0 <= j < |s| && s[j] == ds[i];
      }
    }
    if ZeroDigitsOnly(ds) {
      forall j | 0 <= j < |s| && IsDigit(s[j])
        ensures s[j] == '0'
      {
        var i :| 0 <= i < |ds| && ds[i] == s[j];
      }
    }
  }

  /** A collector number without digits gets key 0; non-digits are ignored wherever
      they stand. */
  lemma KeyIgnoresNonDigits(s: string, c: char)
    requires !IsDigit(c)
    ensures DigitsOf(s + [c]) == DigitsOf(s)
    ensures (forall i :: 0 <= i < |s| ==> !IsDigit(s[i])) ==> DigitsOf(s) == [] && DecimalValue(DigitsOf(s)) == 0
  {
    assert (s + [c])[..|s|] == s;
    if forall i :: 0 <= i < |s| ==> !IsDigit(s[i]) {
      NoDigits(s);
    }
  }

  lemma {:induction false} NoDigits(s: string)
    requires forall i :: 0 <= i < |s| ==> !IsDigit(s[i])
    ensures DigitsOf(s) == []
  {
    if s != [] {
      NoDigits(s[..|s| - 1]);
    }
  }

  /** Leading zeros do not count: the collector number `"015"` gives key 15. */
  lemma KeyOfLeadingZero()
    ensures DecimalValue(DigitsOf("015")) == 15
  {
    assert "015"[..2] == "01" && "01"[..1] == "0" && "0"[..0] == "";
    assert DigitsOf("0") == "0";
    assert DigitsOf("01") == "01";
    assert DigitsOf("015") == "015";
    assert DecimalValue("0") == 0;
    assert DecimalValue("01") == 1;
  }

  /** A letter suffix is dropped: the collector number `"12a"` gives key 12. */
  lemma KeyOfLetterSuffix()
    ensures DecimalValue(DigitsOf("12a")) == 12
  {
    assert "12a"[..2] == "12" && "12"[..1] == "1" && "1"[..0] == "";
    assert DigitsOf("1") == "1";
    assert DigitsOf("12") == "12";
    assert DigitsOf("12a") == "12";
    assert DecimalValue("1") == 1;
  }

  /** A rarity bucket after `group.sort(...)`. */
  function SortBucket(bucket: seq<Card>): seq<Card>
  {
    SortByKey(bucket, CollectorKey)
  }

  /** After the sort a bucket is a permutation of its old contents, ascending by
      collector key, and cards with equal keys are in their old relative order. */
  lemma SortBucketProperties(bucket: seq<Card>)
    ensures multiset(SortBucket(bucket)) == multiset(bucket)
    ensures forall i, j :: 0 <= i < j < |SortBucket(bucket)| ==>
              CollectorKey(SortBucket(bucket)[i]) <= CollectorKey(SortBucket(bucket)[j])
    ensures forall k :: WithKey(SortBucket(bucket), k, CollectorKey) == WithKey(bucket, k, CollectorKey)
  {
    SortByKeyProperties(bucket, CollectorKey);
  }
}
