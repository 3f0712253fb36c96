/** What several modules need of sequences, sets and maps. */
module Collections {

  lemma Assoc<T>(a: seq<T>, b: seq<T>, c: seq<T>)
    ensures (a + b) + c == a + (b + c)
  {
  }

  lemma UnionAssoc<T>(a: set<T>, b: set<T>, c: set<T>)
    ensures (a + b) + c == a + (b + c)
  {
  }

  /** What stands behind the last `c`. */
  function AfterLast<T(==)>(s: seq<T>, c: T): seq<T> {
    if c !in s then s else AfterLast(s[1..], c)
  }

  lemma {:induction false} LastPast<T>(a: seq<T>, s: seq<T>, c: T)
    requires c in s
    ensures AfterLast(a + s, c) == AfterLast(s, c)
    decreases |a|
  {
    if a == [] {
      assert a + s == s;
    } else {
      assert (a + s)[|a|..] == s && (a + s)[1..] == a[1..] + s;
      LastPast(a[1..], s, c);
    }
  }

  lemma LastPart<T>(s: seq<T>, c: T)
    requires c !in s
    ensures AfterLast([c] + s, c) == s
  {
    assert ([c] + s)[1..] == s;
  }

  /** What stands before the first `c`. */
  function BeforeFirst<T(==)>(s: seq<T>, c: T): seq<T> {
    if s == [] || s[0] == c then [] else [s[0]] + BeforeFirst(s[1..], c)
  }

  lemma {:induction false} FirstPart<T>(a: seq<T>, x: seq<T>, c: T)
    requires c !in a
    ensures BeforeFirst(a + ([c] + x), c) == a
    decreases |a|
  {
    if a != [] {
      assert (a + ([c] + x))[1..] == a[1..] + ([c] + x);
      FirstPart(a[1..], x, c);
      assert a == [a[0]] + a[1..];
    }
  }

  lemma SplitAtFirst<T>(a: seq<T>, x: seq<T>, b: seq<T>, y: seq<T>, c: T)
    requires c !in a && c !in b && a + ([c] + x) == b + ([c] + y)
    ensures a == b && x == y
  {
    var s := a + ([c] + x);
    FirstPart(a, x, c);
    FirstPart(b, y, c);
    assert x == s[|a| + 1..] == y;
  }

  /** How many bytes a text takes in UTF-8. */
  function Utf8Length(s: string): nat {
    if s == "" then 0 else Utf8Width(s[0]) + Utf8Length(s[1..])
  }

  function Utf8Width(c: char): nat {
    if c < '\U{80}' then 1 else if c < '\U{800}' then 2 else if c < '\U{10000}' then 3 else 4
  }

  lemma {:induction false} AsciiLength(s: string)
    requires forall i :: 0 <= i < |s| ==> s[i] < '\U{80}'
    ensures Utf8Length(s) == |s|
    decreases |s|
  {
    if s != "" {
      AsciiLength(s[1..]);
    }
  }

  /** `b` says of every key of `a` what `a` says. */
  predicate Within<K, V(==)>(a: map<K, V>, b: map<K, V>) {
    forall k {:trigger k in a} :: k in a ==> k in b && a[k] == b[k]
  }
}
