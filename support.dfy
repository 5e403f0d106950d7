/** Small value-level helpers shared by the components: an option type and the
    few JavaScript string and array operations the form relies on. */
module Support {

  datatype Option<T> = None | Some(value: T)

  /** JavaScript's `s.startsWith(p)`. */
  predicate StartsWith(s: string, p: string)
  {
    |p| <= |s| && s[..|p|] == p
  }

  /** `p` occurs in `s` at position `i`. */
  predicate OccursAt(s: string, p: string, i: int)
  {
    0 <= i && i + |p| <= |s| && s[i..i + |p|] == p
  }

  /** JavaScript's `s.indexOf(p, from)` for a non-empty `p`: the first
      position at or after `from` where `p` occurs, or -1. (For an empty `p`
      and `from` past the end JavaScript answers `|s|`; the model answers
      -1, and it is only used with a non-empty pattern.) */
  function IndexOf(s: string, p: string, from: nat): (r: int)
    decreases |s| - from
    ensures r == -1 || (from <= r && OccursAt(s, p, r))
    ensures r == -1 <==> forall i :: from <= i ==> !OccursAt(s, p, i)
    ensures r != -1 ==> forall i :: from <= i < r ==> !OccursAt(s, p, i)
  {
    if from + |p| > |s| then -1
    else if s[from..from + |p|] == p then from
    else IndexOf(s, p, from + 1)
  }

  /** `s.indexOf(p) !== -1`. */
  predicate Includes(s: string, p: string)
  {
    IndexOf(s, p, 0) != -1
  }

  /** JavaScript's `s.slice(0, n)` for `n >= 0`: the longest prefix of at most
      `n` characters. */
  function Prefix(s: string, n: nat): (r: string)
    ensures |r| <= n && |r| <= |s|
    ensures |r| == n || r == s
    ensures r <= s
  {
    if |s| <= n then s else s[..n]
  }

  /** JavaScript's `xs.filter((_, i) => i !== index)`: every element except the
      one at position `index`, in their order. */
  function DropIndex<T>(xs: seq<T>, index: int): (r: seq<T>)
    ensures 0 <= index < |xs| ==> |r| == |xs| - 1
    ensures 0 <= index < |xs| ==> forall j :: 0 <= j < index ==> r[j] == xs[j]
    ensures 0 <= index < |xs| ==> forall j :: index <= j < |r| ==> r[j] == xs[j + 1]
    ensures !(0 <= index < |xs|) ==> r == xs
  {
    if xs == [] then []
    else (if index == 0 then [] else [xs[0]]) + DropIndex(xs[1..], index - 1)
  }

  /** Dropping position `index` is the same as cutting the sequence around it. */
  lemma DropIndexSplit<T>(xs: seq<T>, index: int)
    requires 0 <= index < |xs|
    ensures DropIndex(xs, index) == xs[..index] + xs[index + 1..]
  {
    var r := DropIndex(xs, index);
    assert |r| == |xs[..index] + xs[index + 1..]|;
    forall j | 0 <= j < |r|
      ensures r[j] == (xs[..index] + xs[index + 1..])[j]
    {
    }
  }

  /** Dropping a position loses exactly the dropped element: the original
      multiset is what is kept plus that one element. */
  lemma DropIndexMultiset<T>(xs: seq<T>, index: int)
    requires 0 <= index < |xs|
    ensures multiset(xs) == multiset(DropIndex(xs, index)) + multiset{xs[index]}
  {
    DropIndexSplit(xs, index);
    CutMultiset(xs, index);
  }

  lemma CutMultiset<T>(xs: seq<T>, index: int)
    requires 0 <= index < |xs|
    ensures multiset(xs) == multiset(xs[..index] + xs[index + 1..]) + multiset{xs[index]}
  {
    var front, back := xs[..index], xs[index + 1..];
    assert xs == front + ([xs[index]] + back);
  }
}
