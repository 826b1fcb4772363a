/**
 The sort keys of `queue_service/utils.py`. `by_data_label` and
 `by_data_name` select a queue's `label` or `name` entry (None when the entry
 is absent); the priority keys are the tuples (selector, priority, id), which
 Python compares lexicographically: the first position where the two tuples
 differ decides, strings compare code point by code point, and a None that
 meets a string raises TypeError.
 */
module SortKeys {
  import opened Base
  import opened Queues

  /** The result of comparing two values that Python can order. */
  datatype Ordering = Less | Equal | Greater

  /** The result of a tuple comparison: an ordering, or the TypeError that
      comparing None with a string raises. */
  datatype Comparison = Ordered(ordering: Ordering) | Unorderable

  /** `(q.data.get(...), q.priority, q.id)`. */
  datatype SortKey = SortKey(selector: Option<string>, priority: int, id: nat)

  function Flip(o: Ordering): Ordering
  {
    match o
    case Less => Greater
    case Equal => Equal
    case Greater => Less
  }

  function CompareInt(a: int, b: int): (o: Ordering)
    ensures o == Less <==> a < b
    ensures o == Equal <==> a == b
  {
    if a < b then Less else if a == b then Equal else Greater
  }

  /** Python's `str` comparison, character by character. */
  function CompareStr(a: string, b: string): Ordering
    decreases |a|
  {
    if |a| == 0 && |b| == 0 then Equal
    else if |a| == 0 then Less
    else if |b| == 0 then Greater
    else if a[0] < b[0] then Less
    else if a[0] > b[0] then Greater
    else CompareStr(a[1..], b[1..])
  }

  /** Lexicographic order on strings, stated directly: `a` is a proper prefix
      of `b`, or the two agree up to a position where `a` has the smaller
      character. */
  predicate StrLess(a: string, b: string)
  {
    || (|a| < |b| && a == b[..|a|])
    || exists k :: 0 <= k < |a| && k < |b| && a[..k] == b[..k] && a[k] < b[k]
  }

  /** `StrLess` with an empty side: the empty string is below every other
      string and nothing is below it. */
  lemma StrLessEmpty(a: string, b: string)
    ensures |a| == 0 ==> (StrLess(a, b) <==> |b| > 0)
    ensures |b| == 0 ==> !StrLess(a, b)
  {
    if |a| == 0 && |b| > 0 {
      assert a == b[..0];
    }
  }

  /** `StrLess` decided by the first characters, when both strings have one. */
  lemma StrLessStep(a: string, b: string)
    requires |a| > 0 && |b| > 0
    ensures StrLess(a, b) <==> a[0] < b[0] || (a[0] == b[0] && StrLess(a[1..], b[1..]))
  {
    if StrLess(a, b) {
      StrLessStepForward(a, b);
    }
    if a[0] < b[0] || (a[0] == b[0] && StrLess(a[1..], b[1..])) {
      StrLessStepBackward(a, b);
    }
  }

  lemma StrLessStepForward(a: string, b: string)
    requires |a| > 0 && |b| > 0 && StrLess(a, b)
    ensures a[0] < b[0] || (a[0] == b[0] && StrLess(a[1..], b[1..]))
  {
    if |a| < |b| && a == b[..|a|] {
      assert a[0] == b[0];
      assert a[1..] == b[1..][..|a[1..]|];
    } else {
      var k :| 0 <= k < |a| && k < |b| && a[..k] == b[..k] && a[k] < b[k];
      if k > 0 {
        assert a[0] == a[..k][0] && b[0] == b[..k][0];
        var restA, restB := a[1..][..k - 1], b[1..][..k - 1];
        forall i | 0 <= i < |restA|
          ensures restA[i] == restB[i]
        {
          assert a[..k][i + 1] == b[..k][i + 1];
        }
        assert restA == restB;
        assert a[1..][k - 1] == a[k] && b[1..][k - 1] == b[k];
      }
    }
  }

  lemma StrLessStepBackward(a: string, b: string)
    requires |a| > 0 && |b| > 0
    requires a[0] < b[0] || (a[0] == b[0] && StrLess(a[1..], b[1..]))
    ensures StrLess(a, b)
  {
    if a[0] < b[0] {
      assert a[..0] == b[..0];
    } else if |a[1..]| < |b[1..]| && a[1..] == b[1..][..|a[1..]|] {
      assert a == [a[0]] + a[1..];
      assert b[..|a|] == [b[0]] + b[1..][..|a[1..]|];
    } else {
      var k :| 0 <= k < |a[1..]| && k < |b[1..]| && a[1..][..k] == b[1..][..k] && a[1..][k] < b[1..][k];
      assert a[..k + 1] == [a[0]] + a[1..][..k];
      assert b[..k + 1] == [b[0]] + b[1..][..k];
      assert a[k + 1] < b[k + 1];
    }
  }

  /** The character comparison says Equal exactly for equal strings. */
  lemma {:induction false} CompareStrEqual(a: string, b: string)
    ensures CompareStr(a, b) == Equal <==> a == b
    decreases |a|
  {
    if |a| > 0 && |b| > 0 && a[0] == b[0] {
      CompareStrEqual(a[1..], b[1..]);
      assert a == [a[0]] + a[1..];
      assert b == [b[0]] + b[1..];
    }
  }

  /** Comparing the other way round flips the answer. */
  lemma {:induction false} CompareStrFlip(a: string, b: string)
    ensures CompareStr(b, a) == Flip(CompareStr(a, b))
    decreases |a|
  {
    if |a| > 0 && |b| > 0 && a[0] == b[0] {
      CompareStrFlip(a[1..], b[1..]);
    }
  }

  /** The character comparison agrees with the direct definition. */
  lemma {:induction false} CompareStrLess(a: string, b: string)
    ensures CompareStr(a, b) == Less <==> StrLess(a, b)
    decreases |a|
  {
    StrLessEmpty(a, b);
    if |a| > 0 && |b| > 0 {
      StrLessStep(a, b);
      if a[0] == b[0] {
        CompareStrLess(a[1..], b[1..]);
      }
    }
  }

  /** The three facts together. */
  lemma CompareStrMeaning(a: string, b: string)
    ensures CompareStr(a, b) == Equal <==> a == b
    ensures CompareStr(a, b) == Less <==> StrLess(a, b)
    ensures CompareStr(b, a) == Flip(CompareStr(a, b))
  {
    CompareStrEqual(a, b);
    CompareStrLess(a, b);
    CompareStrFlip(a, b);
  }

  /** Lexicographic refinement of an ordering. */
  function Then(first: Ordering, next: Ordering): Ordering
  {
    if first == Equal then next else first
  }

  /** Python's `<`/`==` on two key tuples. */
  function CompareKeys(a: SortKey, b: SortKey): Comparison
  {
    if a.selector == b.selector then
      Ordered(Then(CompareInt(a.priority, b.priority), CompareInt(a.id, b.id)))
    else if a.selector.None? || b.selector.None? then Unorderable
    else Ordered(CompareStr(a.selector.value, b.selector.value))
  }

  /** The tuple order stated directly: keys with the same selector go by
      priority and then by id; keys with different selectors go by the
      selector text. */
  predicate KeyLess(a: SortKey, b: SortKey)
  {
    if a.selector == b.selector then
      a.priority < b.priority || (a.priority == b.priority && a.id < b.id)
    else
      a.selector.Some? && b.selector.Some? && StrLess(a.selector.value, b.selector.value)
  }

  /** The tuple comparison is the direct lexicographic order: it raises
      exactly when one key has a selector and the other does not, says Equal
      exactly for equal keys, says Less exactly when `KeyLess` holds, and
      comparing the other way round flips the answer. */
  lemma CompareKeysMeaning(a: SortKey, b: SortKey)
    ensures CompareKeys(a, b) == Unorderable <==> a.selector.Some? != b.selector.Some?
    ensures CompareKeys(a, b) == Ordered(Equal) <==> a == b
    ensures CompareKeys(a, b) == Ordered(Less) <==> KeyLess(a, b)
    ensures CompareKeys(b, a) == (if CompareKeys(a, b).Ordered? then Ordered(Flip(CompareKeys(a, b).ordering)) else Unorderable)
  {
    if a.selector != b.selector && a.selector.Some? && b.selector.Some? {
      CompareStrMeaning(a.selector.value, b.selector.value);
    }
  }

  /** `StrLess` is transitive. */
  lemma {:induction false} StrLessTransitive(a: string, b: string, c: string)
    requires StrLess(a, b) && StrLess(b, c)
    ensures StrLess(a, c)
    decreases |a|
  {
    StrLessEmpty(a, b);
    StrLessEmpty(b, c);
    StrLessEmpty(a, c);
    if |a| > 0 {
      StrLessStep(a, b);
      StrLessStep(b, c);
      StrLessStep(a, c);
      if a[0] == b[0] && b[0] == c[0] {
        StrLessTransitive(a[1..], b[1..], c[1..]);
      }
    }
  }

  /** `StrLess` never holds both ways. */
  lemma {:induction false} StrLessAsymmetric(a: string, b: string)
    ensures !(StrLess(a, b) && StrLess(b, a))
    decreases |a|
  {
    StrLessEmpty(a, b);
    StrLessEmpty(b, a);
    if |a| > 0 && |b| > 0 {
      StrLessStep(a, b);
      StrLessStep(b, a);
      if a[0] == b[0] {
        StrLessAsymmetric(a[1..], b[1..]);
      }
    }
  }

  /** The key order is a strict order on keys it can compare. */
  lemma KeyLessTransitive(a: SortKey, b: SortKey, c: SortKey)
    requires KeyLess(a, b) && KeyLess(b, c)
    ensures KeyLess(a, c)
  {
    if a.selector.Some? && b.selector.Some? && c.selector.Some? {
      var x, y, z := a.selector.value, b.selector.value, c.selector.value;
      StrLessAsymmetric(x, y);
      if x != y && y != z && x != z {
        StrLessTransitive(x, y, z);
      }
    }
  }

  /** Two distinct keys whose selectors are both present or both absent are
      ordered one way or the other. */
  lemma KeyLessTotal(a: SortKey, b: SortKey)
    requires a.selector.Some? == b.selector.Some?
    requires a != b
    ensures KeyLess(a, b) != KeyLess(b, a)
  {
    CompareKeysMeaning(a, b);
    CompareKeysMeaning(b, a);
  }

  /** `by_data_label`. */
  function ByDataLabel(q: Queue): (sel: Option<string>)
    ensures sel.Some? <==> q.data.resourceLabel.Some?
    ensures sel.Some? ==> sel.value == q.data.resourceLabel.value
  {
    q.data.resourceLabel
  }

  /** `by_data_name`. */
  function ByDataName(q: Queue): (sel: Option<string>)
    ensures sel.Some? <==> q.data.resourceName.Some?
    ensures sel.Some? ==> sel.value == q.data.resourceName.value
  {
    q.data.resourceName
  }

  /** `by_data_label_and_priority`. */
  function LabelPriorityKey(q: Queue): (k: SortKey)
    ensures k.selector == ByDataLabel(q) && k.priority == q.priority && k.id == q.id
  {
    SortKey(ByDataLabel(q), q.priority, q.id)
  }

  /** `by_data_name_and_priority`. */
  function NamePriorityKey(q: Queue): (k: SortKey)
    ensures k.selector == ByDataName(q) && k.priority == q.priority && k.id == q.id
  {
    SortKey(ByDataName(q), q.priority, q.id)
  }

  /** Among queues for the same label, the label key puts the lower priority
      number first and breaks ties by id; queues for different labels go by
      label text; a queue without a label cannot be compared with one that
      has one. */
  lemma LabelPriorityOrder(p: Queue, q: Queue)
    ensures ByDataLabel(p) == ByDataLabel(q) ==>
      (CompareKeys(LabelPriorityKey(p), LabelPriorityKey(q)) == Ordered(Less) <==>
         p.priority < q.priority || (p.priority == q.priority && p.id < q.id))
    ensures ByDataLabel(p).Some? && ByDataLabel(q).Some? && ByDataLabel(p) != ByDataLabel(q) ==>
      (CompareKeys(LabelPriorityKey(p), LabelPriorityKey(q)) == Ordered(Less) <==>
         StrLess(ByDataLabel(p).value, ByDataLabel(q).value))
    ensures CompareKeys(LabelPriorityKey(p), LabelPriorityKey(q)) == Unorderable <==>
      ByDataLabel(p).Some? != ByDataLabel(q).Some?
  {
    CompareKeysMeaning(LabelPriorityKey(p), LabelPriorityKey(q));
  }

  /** The same for the name key. */
  lemma NamePriorityOrder(p: Queue, q: Queue)
    ensures ByDataName(p) == ByDataName(q) ==>
      (CompareKeys(NamePriorityKey(p), NamePriorityKey(q)) == Ordered(Less) <==>
         p.priority < q.priority || (p.priority == q.priority && p.id < q.id))
    ensures ByDataName(p).Some? && ByDataName(q).Some? && ByDataName(p) != ByDataName(q) ==>
      (CompareKeys(NamePriorityKey(p), NamePriorityKey(q)) == Ordered(Less) <==>
         StrLess(ByDataName(p).value, ByDataName(q).value))
    ensures CompareKeys(NamePriorityKey(p), NamePriorityKey(q)) == Unorderable <==>
      ByDataName(p).Some? != ByDataName(q).Some?
  {
    CompareKeysMeaning(NamePriorityKey(p), NamePriorityKey(q));
  }

  /** In a list sorted by a priority key, the queues sharing a selector form
      one contiguous run: a queue placed between two queues with the same
      selector has that selector too. */
  lemma SameSelectorContiguous(a: SortKey, b: SortKey, c: SortKey)
    requires KeyLess(a, b) && KeyLess(b, c)
    requires a.selector == c.selector
    ensures b.selector == a.selector
  {
    if a.selector.Some? && b.selector.Some? {
      StrLessAsymmetric(a.selector.value, b.selector.value);
    }
  }
}
