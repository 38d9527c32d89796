/** Small value types and sequence combinators shared by the rest of the model. */
module Common {

  /** JavaScript's `null`/`undefined` versus a present value. */
  datatype Option<T> = None | Some(value: T)

  /** A computation that either yields a value or stops with an error. */
  datatype Result<T, E> = Ok(value: T) | Err(error: E)

  /** A browser `File` chosen by the user; only its identity matters to the logic. */
  datatype File = File(handle: nat)

  /** `x || ''` on a string that may be `null`. */
  function OrEmpty(o: Option<string>): string {
    if o.Some? then o.value else ""
  }

  /** `s || null`: the empty string is falsy and becomes `null`. */
  function OrNull(s: string): Option<string> {
    if s == "" then None else Some(s)
  }

  /** Going to text and back loses only the difference between `null` and `''`. */
  lemma OrEmptyOrNull(s: string, o: Option<string>)
    ensures OrEmpty(OrNull(s)) == s
    ensures OrNull(OrEmpty(o)) == (if o == Some("") then None else o)
  {
  }

  /** `Array.prototype.filter`: the elements satisfying `p`, in their original order. */
  function Filter<T(!new)>(s: seq<T>, p: T -> bool): (r: seq<T>)
    ensures |r| <= |s|
  {
    if s == [] then [] else (if p(s[0]) then [s[0]] else []) + Filter(s[1..], p)
  }

  /** A prefix of a prefix of `a` is a prefix of `a`. */
  lemma PrefixOfPrefix<T>(a: seq<T>, b: seq<T>, n: nat)
    requires |b| <= |a| && a[..|b|] == b && n <= |b|
    ensures a[..n] == b[..n]
  {
    assert a[..n] == a[..|b|][..n];
  }

  /** Filtering a sequence that starts with `y`: `y` if it passes, then the rest filtered. */
  lemma FilterCons<T(!new)>(y: T, s: seq<T>, p: T -> bool)
    ensures Filter([y] + s, p) == (if p(y) then [y] else []) + Filter(s, p)
  {
    assert ([y] + s)[1..] == s;
  }

  /** The filter keeps exactly the elements that satisfy `p`. */
  lemma {:induction false} FilterMembers<T(!new)>(s: seq<T>, p: T -> bool)
    ensures forall x :: x in Filter(s, p) <==> x in s && p(x)
  {
    if s != [] {
      FilterMembers(s[1..], p);
      assert s == [s[0]] + s[1..];
    }
  }

  /** Filtering distributes over concatenation: the filter keeps the elements' order. */
  lemma {:induction false} FilterConcat<T(!new)>(a: seq<T>, b: seq<T>, p: T -> bool)
    ensures Filter(a + b, p) == Filter(a, p) + Filter(b, p)
  {
    if a == [] {
      assert a + b == b;
    } else {
      var t := a[1..];
      var head := if p(a[0]) then [a[0]] else [];
      FilterConcat(t, b, p);
      assert a + b != [] && (a + b)[0] == a[0];
      assert (a + b)[1..] == t + b;
      calc {
        Filter(a + b, p);
        head + Filter(t + b, p);
        head + (Filter(t, p) + Filter(b, p));
        (head + Filter(t, p)) + Filter(b, p);
        Filter(a, p) + Filter(b, p);
      }
    }
  }

  /** The complement of a selector. */
  function Not<T>(p: T -> bool): T -> bool {
    x => !p(x)
  }

  /** What a filter keeps and what the complementary filter keeps are, together, the input. */
  lemma {:induction false} FilterPartition<T(!new)>(s: seq<T>, p: T -> bool)
    ensures multiset(Filter(s, p)) + multiset(Filter(s, Not(p))) == multiset(s)
  {
    if s != [] {
      var t := s[1..];
      FilterPartition(t, p);
      assert s == [s[0]] + t;
      var fp, fq := Filter(t, p), Filter(t, Not(p));
      if p(s[0]) {
        assert Filter(s, p) == [s[0]] + fp;
        assert Filter(s, Not(p)) == fq;
      } else {
        assert Filter(s, p) == fp;
        assert Filter(s, Not(p)) == [s[0]] + fq;
      }
    }
  }

  /** A filter every element passes keeps the whole sequence. */
  lemma {:induction false} FilterAll<T(!new)>(s: seq<T>, p: T -> bool)
    requires forall i :: 0 <= i < |s| ==> p(s[i])
    ensures Filter(s, p) == s
  {
    if s != [] {
      FilterAll(s[1..], p);
    }
  }

  /** `Array.prototype.findIndex`, with `None` for -1: the first index whose element satisfies `p`. */
  function FindIndex<T>(s: seq<T>, p: T -> bool): (r: Option<nat>)
    ensures r.Some? ==> r.value < |s| && p(s[r.value])
    ensures r.Some? ==> forall j :: 0 <= j < r.value ==> !p(s[j])
    ensures r.None? ==> forall j :: 0 <= j < |s| ==> !p(s[j])
  {
    if s == [] then None
    else if p(s[0]) then Some(0)
    else match FindIndex(s[1..], p)
      case None => None
      case Some(i) => Some(i + 1)
  }

  /** `Array.prototype.find`: the first element satisfying `p`, or `undefined`. */
  function Find<T(!new)>(s: seq<T>, p: T -> bool): (r: Option<T>)
    ensures r.Some? <==> exists x :: x in s && p(x)
    ensures r.Some? ==> r.value in s && p(r.value)
  {
    match FindIndex(s, p)
    case None => None
    case Some(i) => Some(s[i])
  }

  /** `find` returns the element standing at the first matching position. */
  lemma FindIsFirst<T(!new)>(s: seq<T>, p: T -> bool)
    ensures Find(s, p).Some? ==> exists i :: 0 <= i < |s| && s[i] == Find(s, p).value
                                   && (forall j :: 0 <= j < i ==> !p(s[j]))
  {
    match FindIndex(s, p)
    case None =>
    case Some(i) =>
  }
}
