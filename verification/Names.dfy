/** Sorting names, as `sort.Strings` does for a batch and `sort.Slice` for a transaction. */
module Names {

  /** `a` sorts before `b`. */
  predicate Less(a: string, b: string) {
    if b == [] then false
    else if a == [] then true
    else if a[0] != b[0] then a[0] < b[0]
    else Less(a[1..], b[1..])
  }

  lemma {:induction false} LessTotal(a: string, b: string)
    ensures a == b || Less(a, b) || Less(b, a)
    ensures !(Less(a, b) && Less(b, a))
    ensures !Less(a, a)
  {
    if a != [] && b != [] {
      LessTotal(a[1..], b[1..]);
      if a[0] == b[0] && a[1..] == b[1..] {
        assert a == [a[0]] + a[1..] && b == [b[0]] + b[1..];
      }
    }
    if a != [] {
      LessTotal(a[1..], a[1..]);
    }
  }

  lemma {:induction false} LessTransitive(a: string, b: string, c: string)
    requires Less(a, b) && Less(b, c)
    ensures Less(a, c)
  {
    if a != [] && a[0] == b[0] == c[0] {
      LessTransitive(a[1..], b[1..], c[1..]);
    }
  }

  /** Strictly increasing, hence without repetition. */
  ghost predicate Increasing(s: seq<string>) {
    forall i, j | 0 <= i < j < |s| :: Less(s[i], s[j])
  }

  function Insert(x: string, s: seq<string>): seq<string> {
    if s == [] || Less(x, s[0]) then [x] + s
    else if x == s[0] then s
    else [s[0]] + Insert(x, s[1..])
  }

  /** The distinct names of a list, sorted. */
  function SortDistinct(names: seq<string>): seq<string> {
    if names == [] then [] else Insert(names[0], SortDistinct(names[1..]))
  }

  lemma {:induction false} InsertKeeps(x: string, s: seq<string>)
    requires Increasing(s)
    ensures Increasing(Insert(x, s))
    ensures forall y :: y in Insert(x, s) <==> y == x || y in s
  {
    if s == [] {
    } else if Less(x, s[0]) {
      forall j | 0 < j < |s| ensures Less(x, s[j]) {
        LessTransitive(x, s[0], s[j]);
      }
    } else if x != s[0] {
      LessTotal(x, s[0]);
      InsertKeeps(x, s[1..]);
      var rest := Insert(x, s[1..]);
      assert s == [s[0]] + s[1..];
      forall j | 0 <= j < |rest| ensures Less(s[0], rest[j]) {
        assert rest[j] == x || rest[j] in s[1..];
      }
    } else {
      assert s == [s[0]] + s[1..];
    }
  }

  lemma {:induction false} SortDistinctSorts(names: seq<string>)
    ensures Increasing(SortDistinct(names))
    ensures forall y :: y in SortDistinct(names) <==> y in names
  {
    if names != [] {
      SortDistinctSorts(names[1..]);
      InsertKeeps(names[0], SortDistinct(names[1..]));
      assert names == [names[0]] + names[1..];
    }
  }

  lemma IncreasingDistinct(s: seq<string>)
    requires Increasing(s)
    ensures forall i, j | 0 <= i < j < |s| :: s[i] != s[j]
  {
    forall i, j | 0 <= i < j < |s| ensures s[i] != s[j] {
      LessTotal(s[i], s[j]);
    }
  }
}
