/**
 * Sequence helpers shared by the permission engine and the artifact form.
 * `Dedup` is `list.filter(duplicateFilter)`: the helper keeps an element only
 * where `array.indexOf(item) === index`, i.e. its first occurrence.
 */
module Lists {

  ghost predicate NoDuplicates<T>(s: seq<T>) {
    forall i, j :: 0 <= i < j < |s| ==> s[i] != s[j]
  }

  /** Keeps the first occurrence of every element, in order. */
  function Dedup<T(==)>(s: seq<T>): (r: seq<T>)
    ensures |r| <= |s|
  {
    if s == [] then []
    else
      var init := Dedup(s[..|s| - 1]);
      var last := s[|s| - 1];
      if last in s[..|s| - 1] then init else init + [last]
  }

  /** `list[key] || []` for a map of lists. */
  function Get<K, T>(m: map<K, seq<T>>, k: K): seq<T> {
    if k in m then m[k] else []
  }

  /** `s.includes(t)` for strings: `t` occurs somewhere in `s`. */
  predicate Includes<T(==)>(s: seq<T>, t: seq<T>)
    decreases |s|
  {
    t <= s || (|s| > 0 && Includes(s[1..], t))
  }

  /** `t` occurs in `s` starting at index `i`. */
  ghost predicate OccursAt<T>(s: seq<T>, t: seq<T>, i: int) {
    0 <= i && i + |t| <= |s| && s[i..i + |t|] == t
  }

  /** `Includes` is the substring test it claims to be. */
  lemma {:induction false} IncludesAt<T>(s: seq<T>, t: seq<T>)
    ensures Includes(s, t) <==> exists i :: OccursAt(s, t, i)
    decreases |s|
  {
    if t <= s {
      assert s[0..|t|] == t;
      assert OccursAt(s, t, 0);
    } else if |s| > 0 {
      IncludesAt(s[1..], t);
      if Includes(s[1..], t) {
        var i :| OccursAt(s[1..], t, i);
        ShiftOccurs(s, t, i + 1);
      }
      if exists i :: OccursAt(s, t, i) {
        var i :| OccursAt(s, t, i);
        if i != 0 {
          ShiftOccurs(s, t, i);
        }
      }
    }
  }

  /** An occurrence at `i >= 1` is an occurrence at `i - 1` in the tail. */
  lemma ShiftOccurs<T>(s: seq<T>, t: seq<T>, i: int)
    requires |s| > 0 && i >= 1
    ensures OccursAt(s, t, i) <==> OccursAt(s[1..], t, i - 1)
  {
    if i + |t| <= |s| {
      assert s[1..][i - 1..i - 1 + |t|] == s[i..i + |t|];
    }
  }

  /** Dedup keeps exactly the elements of its input, each once. */
  lemma {:induction false} DedupSpec<T>(s: seq<T>)
    ensures NoDuplicates(Dedup(s))
    ensures forall x :: x in Dedup(s) <==> x in s
  {
    if s != [] {
      DedupSpec(s[..|s| - 1]);
      assert s == s[..|s| - 1] + [s[|s| - 1]];
    }
  }

  /** Dedup leaves a duplicate-free sequence as it is. */
  lemma {:induction false} DedupNoDuplicates<T>(s: seq<T>)
    requires NoDuplicates(s)
    ensures Dedup(s) == s
  {
    if s != [] {
      var init := s[..|s| - 1];
      assert NoDuplicates(init);
      DedupNoDuplicates(init);
      assert s[|s| - 1] !in init;
      assert init + [s[|s| - 1]] == s;
    }
  }

  /** Appending elements that already occur changes nothing. */
  lemma {:induction false} DedupAppendCovered<T>(a: seq<T>, b: seq<T>)
    requires forall x :: x in b ==> x in a
    ensures Dedup(a + b) == Dedup(a)
    decreases |b|
  {
    if b != [] {
      var b' := b[..|b| - 1];
      var y := b[|b| - 1];
      assert (a + b)[..|a + b| - 1] == a + b';
      assert (a + b)[|a + b| - 1] == y;
      DedupAppendCovered(a, b');
      assert y in a + b';
    } else {
      assert a + b == a;
    }
  }

  /** Dedup of a prefix is a prefix of Dedup: first occurrences keep their order. */
  lemma {:induction false} DedupPrefix<T>(a: seq<T>, b: seq<T>)
    ensures Dedup(a) <= Dedup(a + b)
    decreases |b|
  {
    if b == [] {
      assert a + b == a;
    } else {
      var b' := b[..|b| - 1];
      assert (a + b)[..|a + b| - 1] == a + b';
      DedupPrefix(a, b');
    }
  }

  /** Deduplicating the left part first makes no difference. */
  lemma {:induction false} DedupDedupLeft<T>(a: seq<T>, b: seq<T>)
    ensures Dedup(Dedup(a) + b) == Dedup(a + b)
    decreases |b|
  {
    if b == [] {
      assert Dedup(a) + b == Dedup(a);
      assert a + b == a;
      DedupSpec(a);
      DedupNoDuplicates(Dedup(a));
    } else {
      var b' := b[..|b| - 1];
      var y := b[|b| - 1];
      assert (Dedup(a) + b)[..|Dedup(a) + b| - 1] == Dedup(a) + b';
      assert (Dedup(a) + b)[|Dedup(a) + b| - 1] == y;
      assert (a + b)[..|a + b| - 1] == a + b';
      assert (a + b)[|a + b| - 1] == y;
      DedupDedupLeft(a, b');
      DedupSpec(a);
      assert (y in Dedup(a) + b') <==> (y in a + b');
    }
  }

  /** Deduplicating the right part first makes no difference. */
  lemma {:induction false} DedupDedupRight<T>(a: seq<T>, b: seq<T>)
    ensures Dedup(a + Dedup(b)) == Dedup(a + b)
    decreases |b|
  {
    if b == [] {
      assert a + Dedup(b) == a;
      assert a + b == a;
    } else {
      var b' := b[..|b| - 1];
      var y := b[|b| - 1];
      assert (a + b)[..|a + b| - 1] == a + b';
      assert (a + b)[|a + b| - 1] == y;
      DedupDedupRight(a, b');
      if y in b' {
        assert Dedup(b) == Dedup(b');
      } else {
        assert Dedup(b) == Dedup(b') + [y];
        var l := a + Dedup(b');
        assert a + Dedup(b) == l + [y];
        assert (l + [y])[..|l + [y]| - 1] == l;
        DedupSpec(b');
        assert (y in l) <==> (y in a + b');
      }
    }
  }

  /** Both groupings of a three-way concatenation deduplicate alike. */
  lemma DedupAssociative<T>(a: seq<T>, b: seq<T>, c: seq<T>)
    ensures Dedup(Dedup(a + b) + c) == Dedup(a + Dedup(b + c))
  {
    var abc := a + b + c;
    assert abc == a + (b + c);
    calc {
      Dedup(Dedup(a + b) + c);
      { DedupDedupLeft(a + b, c); }
      Dedup(abc);
      { DedupDedupRight(a, b + c); }
      Dedup(a + Dedup(b + c));
    }
  }

  /** Repeating the first element in front changes nothing. */
  lemma {:induction false} DedupRepeatHead<T>(v: T, s: seq<T>)
    requires |s| > 0 && s[0] == v
    ensures Dedup([v] + s) == Dedup(s)
    decreases |s|
  {
    if |s| > 1 {
      var s' := s[..|s| - 1];
      var y := s[|s| - 1];
      assert ([v] + s)[..|[v] + s| - 1] == [v] + s';
      assert ([v] + s)[|[v] + s| - 1] == y;
      DedupRepeatHead(v, s');
      assert (y in [v] + s') <==> (y in s');
    } else {
      assert s == [v];
      assert [v] + s == [v, v];
      assert [v, v][..1] == [v];
    }
  }

  /** Two maps with the same keys and the same value at every key are equal. */
  lemma MapsAgree<K, V>(m1: map<K, V>, m2: map<K, V>)
    requires m1.Keys == m2.Keys
    requires forall k :: k in m1 ==> m1[k] == m2[k]
    ensures m1 == m2
  {
  }
}
