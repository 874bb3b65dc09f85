/** Regular expressions as hand-written scanners.  A scanner `At(s, p)`
    gives the match that Python's backtracking engine finds when it tries
    position `p` of `s`, with what the pattern captured and where the
    match ends; `Search` and `FindAll` are `re.search` and `re.finditer`
    over such a scanner. */
module Scan {
  import opened Basics

  /** A match: what the pattern captured and where the match ends. */
  datatype Hit<T> = Hit(value: T, end: nat)

  /** `re.search`: the match at the leftmost position where there is one. */
  function Search<T>(s: string, at: (string, nat) -> Option<Hit<T>>): Option<Hit<T>> {
    SearchFrom(s, 0, at)
  }

  function SearchFrom<T>(s: string, p: nat, at: (string, nat) -> Option<Hit<T>>): Option<Hit<T>>
    decreases |s| + 1 - p
  {
    if p > |s| then None
    else if at(s, p).Some? then at(s, p)
    else SearchFrom(s, p + 1, at)
  }

  /** The search fails exactly when the pattern matches at no position. */
  lemma {:induction false} SearchNone<T>(s: string, p: nat, at: (string, nat) -> Option<Hit<T>>)
    ensures SearchFrom(s, p, at).None? <==> forall k :: p <= k <= |s| ==> at(s, k).None?
    decreases |s| + 1 - p
  {
    if p <= |s| {
      SearchNone(s, p + 1, at);
    }
  }

  /** `re.finditer` from `p`: the leftmost match, then the next one from
      where it ended. */
  function FindAll<T>(s: string, p: nat, at: (string, nat) -> Option<Hit<T>>): seq<T>
    decreases |s| + 1 - p
  {
    if p > |s| then []
    else match at(s, p)
      case Some(h) => if p < h.end <= |s| then [h.value] + FindAll(s, h.end, at) else FindAll(s, p + 1, at)
      case None => FindAll(s, p + 1, at)
  }

  /** A pattern that matches nowhere finds nothing. */
  lemma {:induction false} FindAllNone<T>(s: string, p: nat, at: (string, nat) -> Option<Hit<T>>)
    requires forall k :: p <= k <= |s| ==> at(s, k).None?
    ensures FindAll(s, p, at) == []
    decreases |s| + 1 - p
  {
    if p <= |s| {
      FindAllNone(s, p + 1, at);
    }
  }

  /** Every value found is the value of a match at some position. */
  lemma {:induction false} FindAllFrom<T>(s: string, p: nat, at: (string, nat) -> Option<Hit<T>>, x: T)
    requires x in FindAll(s, p, at)
    ensures exists k, h :: p <= k <= |s| && at(s, k) == Some(h) && h.value == x
    decreases |s| + 1 - p
  {
    if p <= |s| {
      match at(s, p)
      case Some(h) =>
        if p < h.end <= |s| {
          if x != h.value {
            FindAllFrom(s, h.end, at, x);
          }
        } else {
          FindAllFrom(s, p + 1, at, x);
        }
      case None =>
        FindAllFrom(s, p + 1, at, x);
    }
  }

  /** Two scanners that agree at every position search alike. */
  lemma {:induction false} SearchAgree<T>(s: string, p: nat, at1: (string, nat) -> Option<Hit<T>>, at2: (string, nat) -> Option<Hit<T>>)
    requires forall k :: p <= k <= |s| ==> at1(s, k) == at2(s, k)
    ensures SearchFrom(s, p, at1) == SearchFrom(s, p, at2)
    decreases |s| + 1 - p
  {
    if p <= |s| {
      SearchAgree(s, p + 1, at1, at2);
    }
  }

  /** Positions where the pattern does not match are passed over. */
  lemma {:induction false} FindAllSkip<T>(s: string, p: nat, q: nat, at: (string, nat) -> Option<Hit<T>>)
    requires p <= q <= |s| + 1
    requires forall k :: p <= k < q ==> at(s, k).None?
    ensures FindAll(s, p, at) == FindAll(s, q, at)
    decreases q - p
  {
    if p < q {
      FindAllSkip(s, p + 1, q, at);
    }
  }

  /** A match that ends later in the text is found, and the scan resumes
      where it ends. */
  lemma FindAllHit<T>(s: string, p: nat, at: (string, nat) -> Option<Hit<T>>)
    requires p <= |s| && at(s, p).Some? && p < at(s, p).value.end <= |s|
    ensures FindAll(s, p, at) == [at(s, p).value.value] + FindAll(s, at(s, p).value.end, at)
  {
  }
}
