/** The canvas' draw order (`typePriority` and the comparator of
    `sortedElements` in src/app/threeCanvas.js): a stable ascending sort of the
    flattened elements by a fixed type priority, so images are painted first
    and titles last. */
module DrawOrder {
  import opened Content
  import opened TreeLayout

  /** `typePriority[el._type] || 999`. */
  function Priority(kind: Kind): (p: int)
    ensures p == 999 <==> kind.OtherKind?
    ensures !kind.OtherKind? ==> 4 <= p <= 9
  {
    match kind
    case TitleElement => 9
    case ButtonElement => 8
    case DescriptionElement => 7
    case VideoElement => 5
    case ImageElement => 4
    case OtherKind(_) => 999
  }

  /** The sort key of a flattened element. */
  function Key(e: FlatElement): int
  {
    Priority(e.el.kind)
  }

  /** The comparator `(a, b) => key(a) - key(b)`: negative when `a` goes first. */
  function Compare(a: FlatElement, b: FlatElement): (d: int)
    ensures d < 0 <==> Key(a) < Key(b)
    ensures d == 0 <==> Key(a) == Key(b)
    ensures d > 0 <==> Key(b) < Key(a)
  {
    Key(a) - Key(b)
  }

  /** The priorities in the order the table gives them, with every unknown
      type after all known ones. */
  lemma PriorityOrder(tag: string)
    ensures Priority(ImageElement) < Priority(VideoElement) < Priority(DescriptionElement)
    ensures Priority(DescriptionElement) < Priority(ButtonElement) < Priority(TitleElement)
    ensures forall k: Kind :: !k.OtherKind? ==> Priority(k) < Priority(OtherKind(tag))
  {
  }

  /** Read through `KindOf`, a tag gets the table's priority: 9, 8, 7, 4
      and 5 for the five known tags, 999 for any other. */
  lemma TablePriority(tag: string)
    ensures tag == "titleElement" ==> Priority(KindOf(tag)) == 9
    ensures tag == "buttonElement" ==> Priority(KindOf(tag)) == 8
    ensures tag == "descriptionElement" ==> Priority(KindOf(tag)) == 7
    ensures tag == "imageElement" ==> Priority(KindOf(tag)) == 4
    ensures tag == "videoElement" ==> Priority(KindOf(tag)) == 5
    ensures tag !in KnownTags ==> Priority(KindOf(tag)) == 999
  {
  }

  predicate Sorted(s: seq<FlatElement>)
  {
    forall i, j :: 0 <= i < j < |s| ==> Key(s[i]) <= Key(s[j])
  }

  /** The elements of `s` with key `k`, in their order in `s`. */
  function WithKey(s: seq<FlatElement>, k: int): (r: seq<FlatElement>)
    ensures |r| <= |s|
  {
    if s == [] then []
    else if Key(s[0]) == k then [s[0]] + WithKey(s[1..], k)
    else WithKey(s[1..], k)
  }

  /** `x` placed before the first element whose key is not below its own. */
  function Insert(x: FlatElement, s: seq<FlatElement>): (r: seq<FlatElement>)
    ensures multiset(r) == multiset(s) + multiset{x}
  {
    if s == [] || Key(x) <= Key(s[0]) then [x] + s
    else
      assert s == [s[0]] + s[1..];
      [s[0]] + Insert(x, s[1..])
  }

  lemma {:induction false} InsertSorted(x: FlatElement, s: seq<FlatElement>)
    requires Sorted(s)
    ensures Sorted(Insert(x, s))
  {
    if s == [] || Key(x) <= Key(s[0]) {
      ConsSorted(x, s);
    } else {
      var t := Insert(x, s[1..]);
      InsertSorted(x, s[1..]);
      forall e | e in t ensures Key(s[0]) <= Key(e) {
        assert e in multiset(t);
        if e != x {
          assert e in multiset(s[1..]);
          var j :| 0 <= j < |s[1..]| && s[1..][j] == e;
          assert s[j + 1] == e;
        }
      }
      ConsSorted(s[0], t);
    }
  }

  /** A sorted list stays sorted with an element in front whose key is at
      most every key in it. */
  lemma ConsSorted(y: FlatElement, t: seq<FlatElement>)
    requires Sorted(t)
    requires forall e :: e in t ==> Key(y) <= Key(e)
    ensures Sorted([y] + t)
  {
    var r := [y] + t;
    forall i, j | 0 <= i < j < |r| ensures Key(r[i]) <= Key(r[j]) {
      assert r[j] == t[j - 1];
      if i > 0 {
        assert r[i] == t[i - 1];
      } else {
        assert t[j - 1] in t;
      }
    }
  }

  /** Inserting `x` puts it in front of the elements of its own key and
      leaves the other keys' subsequences as they were. */
  lemma {:induction false} InsertWithKey(x: FlatElement, s: seq<FlatElement>, k: int)
    ensures WithKey(Insert(x, s), k) == if Key(x) == k then [x] + WithKey(s, k) else WithKey(s, k)
  {
    if s == [] || Key(x) <= Key(s[0]) {
      assert ([x] + s)[0] == x && ([x] + s)[1..] == s;
    } else {
      var r := [s[0]] + Insert(x, s[1..]);
      assert r[0] == s[0] && r[1..] == Insert(x, s[1..]);
      InsertWithKey(x, s[1..], k);
    }
  }

  /** `[...flattenedElements].sort(comparator)`: a new list (the input is a
      value and is not changed), ordered by key, holding the same elements,
      and keeping the input order among elements of equal key. */
  function SortByPriority(s: seq<FlatElement>): (r: seq<FlatElement>)
    ensures Sorted(r)
    ensures multiset(r) == multiset(s)
    ensures forall k :: WithKey(r, k) == WithKey(s, k)
  {
    if s == [] then []
    else
      var rest := SortByPriority(s[1..]);
      InsertSorted(s[0], rest);
      InsertKeepsContents(s, rest);
      Insert(s[0], rest)
  }

  /** Inserting the head of `s` into a list with the same elements, and the
      same per-key subsequences, as its tail gives those of `s`. */
  lemma InsertKeepsContents(s: seq<FlatElement>, rest: seq<FlatElement>)
    requires s != []
    requires multiset(rest) == multiset(s[1..])
    requires forall k :: WithKey(rest, k) == WithKey(s[1..], k)
    ensures multiset(Insert(s[0], rest)) == multiset(s)
    ensures forall k :: WithKey(Insert(s[0], rest), k) == WithKey(s, k)
  {
    assert s == [s[0]] + s[1..];
    forall k ensures WithKey(Insert(s[0], rest), k) == WithKey(s, k) {
      InsertWithKey(s[0], rest, k);
    }
  }

  /** Sorting a list that is already in draw order changes nothing. */
  lemma {:induction false} SortedIsFixed(s: seq<FlatElement>)
    requires Sorted(s)
    ensures SortByPriority(s) == s
  {
    if s != [] {
      SortedIsFixed(s[1..]);
      assert s == [s[0]] + s[1..];
    }
  }

  /** Two lists in key order that agree on the elements of every key, in
      order, are the same list: any stable sort by this key gives exactly
      `SortByPriority`'s result. */
  lemma {:induction false} StableSortUnique(a: seq<FlatElement>, b: seq<FlatElement>)
    requires Sorted(a) && Sorted(b)
    requires forall k :: WithKey(a, k) == WithKey(b, k)
    ensures a == b
    decreases |a|
  {
    if a == [] || b == [] {
      var c := if a == [] then b else a;
      if c != [] {
        KeyIsPresent(c, Key(c[0]));
        assert WithKey(a, Key(c[0])) != WithKey(b, Key(c[0]));
      }
    } else {
      var ka, kb := Key(a[0]), Key(b[0]);
      assert WithKey(a, ka)[0] == a[0];
      assert WithKey(b, kb)[0] == b[0];
      KeyIsPresent(a, ka);
      KeyIsPresent(b, kb);
      FirstIsMin(a, kb);
      FirstIsMin(b, ka);
      assert ka == kb;
      assert a[0] == b[0];
      forall k ensures WithKey(a[1..], k) == WithKey(b[1..], k) {
        if ka == k {
          assert WithKey(a, k) == [a[0]] + WithKey(a[1..], k);
          assert WithKey(b, k) == [b[0]] + WithKey(b[1..], k);
          assert WithKey(a, k)[1..] == WithKey(a[1..], k);
          assert WithKey(b, k)[1..] == WithKey(b[1..], k);
        } else {
          assert WithKey(a, k) == WithKey(a[1..], k);
          assert WithKey(b, k) == WithKey(b[1..], k);
        }
      }
      StableSortUnique(a[1..], b[1..]);
      assert a == [a[0]] + a[1..] && b == [b[0]] + b[1..];
    }
  }

  lemma KeyIsPresent(s: seq<FlatElement>, k: int)
    requires s != [] && Key(s[0]) == k
    ensures WithKey(s, k) != []
  {
  }

  /** In a sorted list every key that occurs is at least the first one. */
  lemma {:induction false} FirstIsMin(s: seq<FlatElement>, k: int)
    requires Sorted(s) && s != [] && WithKey(s, k) != []
    ensures Key(s[0]) <= k
  {
    if Key(s[0]) != k {
      assert WithKey(s, k) == WithKey(s[1..], k);
      var e := WithKey(s[1..], k)[0];
      WithKeyMember(s[1..], k);
      assert e in s[1..];
      var j :| 0 <= j < |s[1..]| && s[1..][j] == e;
      assert s[j + 1] == e;
    }
  }

  /** Every element `WithKey` picks is in the list and has the key. */
  lemma {:induction false} WithKeyMember(s: seq<FlatElement>, k: int)
    ensures forall e :: e in WithKey(s, k) ==> e in s && Key(e) == k
  {
    if s != [] {
      WithKeyMember(s[1..], k);
    }
  }
}
