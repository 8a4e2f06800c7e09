/** The order paths are sorted in, sorting by it, and lists of the paths of a set. */
module PathOrder {

  /** a sorts strictly before b: lexicographically, a prefix first. */
  predicate Below(a: string, b: string) {
    b != [] && (a == [] || a[0] < b[0] || (a[0] == b[0] && Below(a[1..], b[1..])))
  }

  lemma {:induction false} NotBelowSelf(a: string)
    ensures !Below(a, a)
  {
    if a != [] {
      NotBelowSelf(a[1..]);
    }
  }

  lemma {:induction false} BelowTransitive(a: string, b: string, c: string)
    requires Below(a, b) && Below(b, c)
    ensures Below(a, c)
  {
    if a != [] && a[0] == b[0] == c[0] {
      BelowTransitive(a[1..], b[1..], c[1..]);
    }
  }

  lemma {:induction false} BelowTotal(a: string, b: string)
    ensures Below(a, b) || Below(b, a) || a == b
  {
    if a != [] && b != [] && a[0] == b[0] {
      BelowTotal(a[1..], b[1..]);
      assert a == [a[0]] + a[1..] && b == [b[0]] + b[1..];
    }
  }

  /** What a path is a prefix of sorts after it. */
  lemma {:induction false} PrefixBelow(a: string, b: string)
    requires a <= b && a != b
    ensures Below(a, b)
  {
    if a != [] {
      assert a == [a[0]] + a[1..] && b == [b[0]] + b[1..];
      PrefixBelow(a[1..], b[1..]);
    }
  }

  ghost predicate SortedBy<T>(s: seq<T>, key: T -> string) {
    forall i, j :: 0 <= i < j < |s| ==> !Below(key(s[j]), key(s[i]))
  }

  function Insert<T>(x: T, s: seq<T>, key: T -> string): (r: seq<T>)
    ensures |r| == |s| + 1
  {
    if s == [] || !Below(key(s[0]), key(x)) then [x] + s else [s[0]] + Insert(x, s[1..], key)
  }

  /** The stable sort by key. */
  function Sort<T>(s: seq<T>, key: T -> string): (r: seq<T>)
    ensures |r| == |s|
  {
    if s == [] then [] else Insert(s[0], Sort(s[1..], key), key)
  }

  lemma {:induction false} InsertElements<T>(x: T, s: seq<T>, key: T -> string, y: T)
    ensures y in Insert(x, s, key) <==> y == x || y in s
  {
    if s != [] && Below(key(s[0]), key(x)) {
      InsertElements(x, s[1..], key, y);
      assert s == [s[0]] + s[1..];
    }
  }

  lemma {:induction false} SortElements<T>(s: seq<T>, key: T -> string, y: T)
    ensures y in Sort(s, key) <==> y in s
  {
    if s != [] {
      SortElements(s[1..], key, y);
      InsertElements(s[0], Sort(s[1..], key), key, y);
      assert s == [s[0]] + s[1..];
    }
  }

  lemma {:induction false} NotBelowTransitive(a: string, b: string, c: string)
    requires !Below(b, a) && !Below(c, b)
    ensures !Below(c, a)
  {
    if Below(c, a) {
      BelowTotal(b, c);
      if b != c {
        BelowTransitive(b, c, a);
      }
    }
  }

  lemma {:induction false} InsertSorted<T>(x: T, s: seq<T>, key: T -> string)
    requires SortedBy(s, key)
    ensures SortedBy(Insert(x, s, key), key)
  {
    if s == [] {
    } else if !Below(key(s[0]), key(x)) {
      forall j | 0 <= j < |s| ensures !Below(key(s[j]), key(x)) {
        if j > 0 {
          NotBelowTransitive(key(x), key(s[0]), key(s[j]));
        }
      }
    } else {
      var rest := Insert(x, s[1..], key);
      InsertSorted(x, s[1..], key);
      forall j | 0 <= j < |rest| ensures !Below(key(rest[j]), key(s[0])) {
        InsertElements(x, s[1..], key, rest[j]);
        if rest[j] == x {
          Asymmetric(key(s[0]), key(x));
        }
      }
    }
  }

  lemma {:induction false} Asymmetric(a: string, b: string)
    requires Below(a, b)
    ensures !Below(b, a)
  {
    if Below(b, a) {
      BelowTransitive(a, b, a);
      NotBelowSelf(a);
    }
  }

  lemma {:induction false} SortSorted<T>(s: seq<T>, key: T -> string)
    ensures SortedBy(Sort(s, key), key)
  {
    if s != [] {
      SortSorted(s[1..], key);
      InsertSorted(s[0], Sort(s[1..], key), key);
    }
  }

  /** Strictly ascending: sorted without repeats. */
  ghost predicate Ascending(s: seq<string>) {
    forall i, j :: 0 <= i < j < |s| ==> Below(s[i], s[j])
  }

  /** Two ascending lists of the same paths are the same list. */
  lemma {:induction false} AscendingUnique(a: seq<string>, b: seq<string>)
    requires Ascending(a) && Ascending(b) && forall p :: p in a <==> p in b
    ensures a == b
  {
    assert a != [] ==> a[0] in a;
    assert b != [] ==> b[0] in b;
    if a != [] && b != [] {
      SameFirst(a, b);
      forall p ensures p in a[1..] <==> p in b[1..] {
        TailElements(a, p);
        TailElements(b, p);
      }
      AscendingUnique(a[1..], b[1..]);
      assert a == [a[0]] + a[1..] && b == [b[0]] + b[1..];
    }
  }

  lemma {:induction false} TailElements(a: seq<string>, p: string)
    requires Ascending(a) && a != []
    ensures p in a[1..] <==> p in a && p != a[0]
  {
    NotBelowSelf(a[0]);
    assert a == [a[0]] + a[1..];
    assert forall i :: 1 <= i < |a| ==> Below(a[0], a[i]);
  }

  lemma {:induction false} SameFirst(a: seq<string>, b: seq<string>)
    requires Ascending(a) && Ascending(b) && forall p :: p in a <==> p in b
    requires a != [] && b != []
    ensures a[0] == b[0]
  {
    assert a[0] in b && b[0] in a;
    if a[0] != b[0] {
      var i :| 0 <= i < |b| && b[i] == a[0];
      var j :| 0 <= j < |a| && a[j] == b[0];
      Asymmetric(b[0], a[0]);
    }
  }

  // ------------------------------------------------------------------ sets of paths

  function Elements(s: seq<string>): set<string> {
    set m | m in s
  }

  ghost predicate NoRepeats(s: seq<string>) {
    forall i, j :: 0 <= i < j < |s| ==> s[i] != s[j]
  }

  /** The elements of a set, in no particular order. */
  method ListOf(all: set<string>) returns (list: seq<string>)
    ensures NoRepeats(list) && Elements(list) == all
  {
    var rest := all;
    list := [];
    while rest != {}
      invariant NoRepeats(list) && rest <= all && Elements(list) == all - rest
      decreases |rest|
    {
      var m :| m in rest;
      ListedOnce(list, m);
      rest := rest - {m};
      list := list + [m];
    }
  }

  lemma {:induction false} ListedOnce(list: seq<string>, m: string)
    requires NoRepeats(list) && m !in Elements(list)
    ensures NoRepeats(list + [m]) && Elements(list + [m]) == Elements(list) + {m}
  {
    assert forall i :: 0 <= i < |list| ==> list[i] in Elements(list);
  }
}
