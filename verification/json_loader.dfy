/**
 `json_continuously_loader(json_string, attempts=10)`: peels repeated
 string-encodings off a JSON value. A dict input is returned as it is.
 Otherwise the loop calls `json.loads` up to `attempts` times, each time on
 the previous result, and returns the first result that `dict()` accepts.
 A `ValueError` (a parse error, or `dict()` refusing the value) is re-raised
 on the last attempt and otherwise starts the next attempt; a `TypeError` is
 not caught.

 Python values are modelled as `Json`, and `json.loads` on text as an
 abstract partial function `parse` (None standing for a JSONDecodeError,
 which is a ValueError); `json.loads` on anything but text raises TypeError.

 As written, a parse error leaves `loaded_json` at its previous value, and
 that value becomes the next input: on the first attempt it is `None`, so a
 malformed text raises TypeError at the second attempt rather than the
 ValueError the comments promise. `ContinuouslyLoad` models the code as
 written; `ContinuouslyLoadCorrected` re-raises the parse error at once.
 */
module JsonLoader {
  import opened Base

  datatype Json =
    | JNull
    | JBool(b: bool)
    | JNumber(n: int)
    | JString(text: string)
    | JArray(items: seq<Json>)
    | JObject(fields: map<string, Json>)

  datatype PyError = ValueError | TypeError

  /** What `dict(v)` does. */
  datatype DictVerdict = Converts | RaisesValueError | RaisesTypeError

  /** `dict()` on one element of a sequence argument: the element must be
      iterable (TypeError otherwise) with exactly two items (ValueError
      otherwise), and its first item must be hashable (TypeError otherwise).
      Iterating a string yields its characters, iterating a dict its keys. */
  function PairVerdict(item: Json): DictVerdict
  {
    match item
    case JString(t) => if |t| == 2 then Converts else RaisesValueError
    case JObject(fs) => if |fs| == 2 then Converts else RaisesValueError
    case JArray(xs) =>
      if |xs| != 2 then RaisesValueError
      else if xs[0].JArray? || xs[0].JObject? then RaisesTypeError
      else Converts
    case _ => RaisesTypeError
  }

  /** `dict()` on a sequence argument: the first failing element decides. */
  function PairsVerdict(items: seq<Json>): (d: DictVerdict)
    ensures d == Converts <==> forall i :: 0 <= i < |items| ==> PairVerdict(items[i]) == Converts
  {
    if |items| == 0 then Converts
    else if PairVerdict(items[0]) != Converts then PairVerdict(items[0])
    else PairsVerdict(items[1..])
  }

  /** Iterating a string: its one-character strings, in order. */
  function Characters(t: string): (cs: seq<Json>)
    ensures |cs| == |t|
    ensures forall i :: 0 <= i < |t| ==> cs[i] == JString([t[i]])
  {
    if |t| == 0 then [] else Characters(t[..|t| - 1]) + [JString([t[|t| - 1]])]
  }

  /** `dict(v)` for a value `json.loads` can produce: a dict converts; a
      string is a sequence of one-character strings, so only the empty string
      converts; a list converts when each element is a pair; numbers, booleans
      and None are not iterable. */
  function DictVerdictOf(v: Json): (d: DictVerdict)
    ensures v.JObject? ==> d == Converts
    ensures v.JString? ==> d == PairsVerdict(Characters(v.text))
    ensures v.JArray? ==> d == PairsVerdict(v.items)
    ensures (v.JNull? || v.JBool? || v.JNumber?) ==> d == RaisesTypeError
  {
    match v
    case JObject(_) => Converts
    case JString(t) => if |t| == 0 then Converts else RaisesValueError
    case JArray(items) => PairsVerdict(items)
    case _ => RaisesTypeError
  }

  /** `json.loads(x)` when it returns: only text can be parsed. */
  function Parsed(x: Json, parse: string -> Option<Json>): Option<Json>
  {
    if x.JString? then parse(x.text) else None
  }

  datatype Outcome = Returned(value: Json) | Raised(error: PyError)

  /** The outcome of a call, with the arguments handed to `json.loads`, in
      order. */
  datatype Load = Load(outcome: Outcome, calls: seq<Json>)

  /** Attempt number `attempt` (of `last`) of the loop as written, with
      `json_string` bound to `current` and `loaded_json` to `loaded`. */
  function LoadAttempt(current: Json, loaded: Json, attempt: nat, last: nat, parse: string -> Option<Json>): (r: Load)
    requires 1 <= attempt <= last
    ensures 1 <= |r.calls| <= last - attempt + 1 && r.calls[0] == current
    ensures var final := r.calls[|r.calls| - 1];
      match r.outcome
      case Returned(v) => Parsed(final, parse) == Some(v) && DictVerdictOf(v) == Converts
      case Raised(ValueError) =>
        && |r.calls| == last - attempt + 1
        && final.JString?
        && (Parsed(final, parse).None? || DictVerdictOf(Parsed(final, parse).value) == RaisesValueError)
      case Raised(TypeError) =>
        !final.JString? || (Parsed(final, parse).Some? && DictVerdictOf(Parsed(final, parse).value) == RaisesTypeError)
    decreases last - attempt
  {
    if !current.JString? then Load(Raised(TypeError), [current])
    else match parse(current.text)
      case None =>
        if attempt == last then Load(Raised(ValueError), [current])
        else
          var rest := LoadAttempt(loaded, loaded, attempt + 1, last, parse);
          Load(rest.outcome, [current] + rest.calls)
      case Some(v) =>
        match DictVerdictOf(v)
        case Converts => Load(Returned(v), [current])
        case RaisesTypeError => Load(Raised(TypeError), [current])
        case RaisesValueError =>
          if attempt == last then Load(Raised(ValueError), [current])
          else
            var rest := LoadAttempt(v, v, attempt + 1, last, parse);
            Load(rest.outcome, [current] + rest.calls)
  }

  /** `json_continuously_loader(input, attempts)` as written. With no
      attempts the loop body never runs and the function returns None. */
  function ContinuouslyLoad(input: Json, attempts: int, parse: string -> Option<Json>): (r: Load)
    ensures input.JObject? ==> r == Load(Returned(input), [])
    ensures |r.calls| <= (if attempts < 0 then 0 else attempts)
    ensures !input.JObject? && attempts < 1 ==> r == Load(Returned(JNull), [])
    ensures !input.JObject? && 1 <= attempts ==> 1 <= |r.calls| && r.calls[0] == input
    ensures r.outcome.Returned? && r.calls != [] ==>
      Parsed(r.calls[|r.calls| - 1], parse) == Some(r.outcome.value) && DictVerdictOf(r.outcome.value) == Converts
    ensures r.outcome == Raised(ValueError) ==>
      && |r.calls| == attempts
      && var final := r.calls[|r.calls| - 1];
         final.JString? && (Parsed(final, parse).None? || DictVerdictOf(Parsed(final, parse).value) == RaisesValueError)
    ensures r.outcome == Raised(TypeError) ==>
      && r.calls != []
      && var final := r.calls[|r.calls| - 1];
         !final.JString? || (Parsed(final, parse).Some? && DictVerdictOf(Parsed(final, parse).value) == RaisesTypeError)
  {
    if input.JObject? then Load(Returned(input), [])
    else if attempts < 1 then Load(Returned(JNull), [])
    else LoadAttempt(input, JNull, 1, attempts, parse)
  }

  /** Reference: the value after `k` successive `json.loads` calls, each on
      the previous result. */
  function Peel(x: Json, k: nat, parse: string -> Option<Json>): Option<Json>
    decreases k
  {
    if k == 0 then Some(x)
    else match Parsed(x, parse)
      case None => None
      case Some(w) => Peel(w, k - 1, parse)
  }

  /** `v` is what `k` peels produce, `dict()` accepts it, and every earlier
      peel produced a value `dict()` refused with a ValueError. */
  ghost predicate FirstDictAfter(x: Json, k: nat, v: Json, parse: string -> Option<Json>)
  {
    && 1 <= k
    && Peel(x, k, parse) == Some(v)
    && DictVerdictOf(v) == Converts
    && forall j :: 1 <= j < k ==> Peel(x, j, parse).Some? && DictVerdictOf(Peel(x, j, parse).value) == RaisesValueError
  }

  lemma FirstDictAfterStep(x: Json, w: Json, k: nat, v: Json, parse: string -> Option<Json>)
    requires Parsed(x, parse) == Some(w) && DictVerdictOf(w) == RaisesValueError && 1 <= k
    ensures FirstDictAfter(x, k + 1, v, parse) <==> FirstDictAfter(w, k, v, parse)
  {
    assert forall j :: 1 <= j ==> Peel(x, j, parse) == Peel(w, j - 1, parse);
    if FirstDictAfter(w, k, v, parse) {
      forall j | 1 <= j < k + 1
        ensures Peel(x, j, parse).Some? && DictVerdictOf(Peel(x, j, parse).value) == RaisesValueError
      {
        if j == 1 {
          assert Peel(x, 1, parse) == Some(w);
        } else {
          assert Peel(x, j, parse) == Peel(w, j - 1, parse);
        }
      }
    }
    if FirstDictAfter(x, k + 1, v, parse) {
      forall j | 1 <= j < k
        ensures Peel(w, j, parse).Some? && DictVerdictOf(Peel(w, j, parse).value) == RaisesValueError
      {
        assert Peel(x, j + 1, parse) == Peel(w, j, parse);
      }
    }
  }

  /** When the text cannot be parsed and `loaded_json` already holds it, every
      remaining attempt fails the same way and the last re-raises. */
  lemma {:induction false} StuckTextRaises(c: Json, attempt: nat, last: nat, parse: string -> Option<Json>)
    requires 1 <= attempt <= last
    requires c.JString? && parse(c.text).None?
    ensures LoadAttempt(c, c, attempt, last, parse).outcome == Raised(ValueError)
    decreases last - attempt
  {
    if attempt < last {
      StuckTextRaises(c, attempt + 1, last, parse);
    }
  }

  lemma {:induction false} LoadAttemptReturns(c: Json, l: Json, attempt: nat, last: nat, v: Json, parse: string -> Option<Json>)
    requires 1 <= attempt <= last
    requires l == c || !l.JString?
    ensures LoadAttempt(c, l, attempt, last, parse).outcome == Returned(v)
      <==> exists m :: 1 <= m <= last - attempt + 1 && FirstDictAfter(c, m, v, parse)
    decreases last - attempt
  {
    var lhs := LoadAttempt(c, l, attempt, last, parse).outcome == Returned(v);
    if Parsed(c, parse).None? {
      assert forall m :: 1 <= m ==> Peel(c, m, parse).None?;
      if c.JString? && attempt < last {
        if l == c {
          StuckTextRaises(c, attempt + 1, last, parse);
        } else {
          assert LoadAttempt(l, l, attempt + 1, last, parse).outcome == Raised(TypeError);
        }
      }
      assert !lhs;
    } else {
      var w := Parsed(c, parse).value;
      assert Peel(c, 1, parse) == Some(w);
      match DictVerdictOf(w)
      case Converts =>
        assert lhs <==> v == w;
        if v == w {
          assert FirstDictAfter(c, 1, v, parse);
        }
      case RaisesTypeError =>
        forall m | 1 <= m <= last - attempt + 1
          ensures !FirstDictAfter(c, m, v, parse)
        {
          if m > 1 {
            assert Peel(c, 1, parse) == Some(w);
          }
        }
      case RaisesValueError =>
        assert !FirstDictAfter(c, 1, v, parse);
        if attempt == last {
          assert !lhs;
        } else {
          LoadAttemptReturns(w, w, attempt + 1, last, v, parse);
          if lhs {
            var m' :| 1 <= m' <= last - attempt && FirstDictAfter(w, m', v, parse);
            FirstDictAfterStep(c, w, m', v, parse);
          }
          forall m | 1 <= m <= last - attempt + 1 && FirstDictAfter(c, m, v, parse)
            ensures lhs
          {
            FirstDictAfterStep(c, w, m - 1, v, parse);
          }
        }
    }
  }

  /** The loader returns `v` exactly when `v` is the first of at most
      `attempts` successive parses that `dict()` accepts, every earlier parse
      having produced a value `dict()` refused with a ValueError. A dict
      input is returned unchanged whatever `parse` does; with no attempts the
      result is None. */
  lemma ContinuouslyLoadReturnsFirstDict(input: Json, attempts: int, v: Json, parse: string -> Option<Json>)
    ensures input.JObject? ==> ContinuouslyLoad(input, attempts, parse).outcome == Returned(input)
    ensures !input.JObject? && 1 <= attempts ==>
      ((ContinuouslyLoad(input, attempts, parse).outcome == Returned(v))
       <==> (exists m :: 1 <= m <= attempts && FirstDictAfter(input, m, v, parse)))
  {
    if !input.JObject? && 1 <= attempts {
      LoadAttemptReturns(input, JNull, 1, attempts, v, parse);
    }
  }

  /** When every one of the remaining successive parses succeeds and `dict()`
      refuses each result with a ValueError, the last attempt re-raises that
      ValueError. */
  lemma {:induction false} AllRefusedRaisesValueError(c: Json, l: Json, attempt: nat, last: nat, parse: string -> Option<Json>)
    requires 1 <= attempt <= last
    requires forall j :: 1 <= j <= last - attempt + 1 ==>
      Peel(c, j, parse).Some? && DictVerdictOf(Peel(c, j, parse).value) == RaisesValueError
    ensures LoadAttempt(c, l, attempt, last, parse).outcome == Raised(ValueError)
    decreases last - attempt
  {
    assert Peel(c, 1, parse).Some?;
    var w := Parsed(c, parse).value;
    assert Peel(c, 1, parse) == Some(w);
    if attempt < last {
      forall j | 1 <= j <= last - (attempt + 1) + 1
        ensures Peel(w, j, parse).Some? && DictVerdictOf(Peel(w, j, parse).value) == RaisesValueError
      {
        assert Peel(c, j + 1, parse) == Peel(w, j, parse);
      }
      AllRefusedRaisesValueError(w, w, attempt + 1, last, parse);
    }
  }

  /** The loader as written raises ValueError when all `attempts` successive
      parses produce values `dict()` refuses with a ValueError. */
  lemma ContinuouslyLoadAllRefusedRaises(input: Json, attempts: int, parse: string -> Option<Json>)
    requires !input.JObject? && 1 <= attempts
    requires forall j :: 1 <= j <= attempts ==>
      Peel(input, j, parse).Some? && DictVerdictOf(Peel(input, j, parse).value) == RaisesValueError
    ensures ContinuouslyLoad(input, attempts, parse).outcome == Raised(ValueError)
    ensures |ContinuouslyLoad(input, attempts, parse).calls| == attempts
  {
    AllRefusedRaisesValueError(input, JNull, 1, attempts, parse);
  }

  /** A text `json.loads` rejects, with the default ten attempts: the second
      attempt calls `json.loads(None)` and raises TypeError. */
  lemma MalformedTextRaisesTypeError()
    ensures ContinuouslyLoad(JString("{"), 10, (t: string) => None)
      == Load(Raised(TypeError), [JString("{"), JNull])
  {
  }

  /** `json_string` is parsed and `dict()` refused the result with a
      ValueError, so the result is what the next attempt parses. */
  ghost predicate Reparsed(prev: Json, next: Json, parse: string -> Option<Json>)
  {
    Parsed(prev, parse) == Some(next) && DictVerdictOf(next) == RaisesValueError
  }

  /** The loop with a parse error re-raised as the ValueError it is. */
  function LoadAttemptCorrected(current: Json, attempt: nat, last: nat, parse: string -> Option<Json>): (r: Load)
    requires 1 <= attempt <= last
    ensures 1 <= |r.calls| <= last - attempt + 1 && r.calls[0] == current
    ensures forall i :: 0 <= i < |r.calls| - 1 ==> Reparsed(r.calls[i], r.calls[i + 1], parse)
    ensures var final := r.calls[|r.calls| - 1];
      match r.outcome
      case Returned(v) => Parsed(final, parse) == Some(v) && DictVerdictOf(v) == Converts
      case Raised(ValueError) =>
        final.JString? && (Parsed(final, parse).None? || DictVerdictOf(Parsed(final, parse).value) == RaisesValueError)
      case Raised(TypeError) =>
        !final.JString? || (Parsed(final, parse).Some? && DictVerdictOf(Parsed(final, parse).value) == RaisesTypeError)
    decreases last - attempt
  {
    if !current.JString? then Load(Raised(TypeError), [current])
    else match parse(current.text)
      case None => Load(Raised(ValueError), [current])
      case Some(v) =>
        match DictVerdictOf(v)
        case Converts => Load(Returned(v), [current])
        case RaisesTypeError => Load(Raised(TypeError), [current])
        case RaisesValueError =>
          if attempt == last then Load(Raised(ValueError), [current])
          else
            var rest := LoadAttemptCorrected(v, attempt + 1, last, parse);
            Load(rest.outcome, [current] + rest.calls)
  }

  /** The loader with the evident intent: each `json.loads` call re-parses the
      previous result, and a text that does not parse surfaces as ValueError,
      never TypeError. */
  function ContinuouslyLoadCorrected(input: Json, attempts: int, parse: string -> Option<Json>): (r: Load)
    ensures input.JObject? ==> r == Load(Returned(input), [])
    ensures |r.calls| <= (if attempts < 0 then 0 else attempts)
    ensures forall i :: 0 <= i < |r.calls| - 1 ==> Reparsed(r.calls[i], r.calls[i + 1], parse)
    ensures r.calls != [] && r.calls[|r.calls| - 1].JString? && Parsed(r.calls[|r.calls| - 1], parse).None? ==>
      r.outcome == Raised(ValueError)
  {
    if input.JObject? then Load(Returned(input), [])
    else if attempts < 1 then Load(Returned(JNull), [])
    else LoadAttemptCorrected(input, 1, attempts, parse)
  }

  /** The same malformed text through the corrected loader. */
  lemma MalformedTextRaisesValueErrorWhenCorrected()
    ensures ContinuouslyLoadCorrected(JString("{"), 10, (t: string) => None)
      == Load(Raised(ValueError), [JString("{")])
  {
  }
}
