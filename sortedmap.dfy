/** `std::map<std::string, V>` as the HTTP code uses it: a sequence of
 *  entries in strictly increasing key order, which is the order in which
 *  the map is iterated. Keys compare byte by byte, a proper prefix first. */
module SortedMaps {
  import opened Common

  /** `std::string` less-than. */
  predicate Less(a: string, b: string)
  {
    if |a| == 0 then |b| > 0
    else if |b| == 0 then false
    else if a[0] != b[0] then a[0] < b[0]
    else Less(a[1..], b[1..])
  }

  lemma {:induction false} LessIrreflexive(a: string)
    ensures !Less(a, a)
  {
    if |a| > 0 {
      LessIrreflexive(a[1..]);
    }
  }

  lemma {:induction false} LessTransitive(a: string, b: string, c: string)
    requires Less(a, b) && Less(b, c)
    ensures Less(a, c)
  {
    if |a| > 0 && a[0] == b[0] && b[0] == c[0] {
      LessTransitive(a[1..], b[1..], c[1..]);
    }
  }

  lemma {:induction false} LessTotal(a: string, b: string)
    ensures a == b || Less(a, b) || Less(b, a)
  {
    if |a| > 0 && |b| > 0 && a[0] == b[0] {
      LessTotal(a[1..], b[1..]);
      if a[1..] == b[1..] {
        assert a == [a[0]] + a[1..] && b == [b[0]] + b[1..];
      }
    }
  }

  /** Two keys are ordered one way only. */
  lemma LessAsymmetric(a: string, b: string)
    requires Less(a, b)
    ensures !Less(b, a) && a != b
  {
    LessIrreflexive(a);
    if Less(b, a) {
      LessTransitive(a, b, a);
    }
  }

  predicate Sorted<V>(e: seq<(string, V)>)
  {
    forall i, j :: 0 <= i < j < |e| ==> Less(e[i].0, e[j].0)
  }

  function Keys<V>(e: seq<(string, V)>): set<string>
  {
    if |e| == 0 then {} else {e[0].0} + Keys(e[1..])
  }

  lemma {:induction false} KeysIndex<V>(e: seq<(string, V)>, x: string)
    ensures x in Keys(e) <==> exists i :: 0 <= i < |e| && e[i].0 == x
  {
    if |e| > 0 {
      KeysIndex(e[1..], x);
      if x in Keys(e[1..]) {
        var i :| 0 <= i < |e[1..]| && e[1..][i].0 == x;
        assert e[i + 1].0 == x;
      }
      if exists i :: 0 <= i < |e| && e[i].0 == x {
        var i :| 0 <= i < |e| && e[i].0 == x;
        if i > 0 { assert e[1..][i - 1].0 == x; }
      }
    }
  }

  /** `find`: the value stored under k. */
  function Find<V>(e: seq<(string, V)>, k: string): (r: Option<V>)
    ensures r.Some? <==> k in Keys(e)
  {
    if |e| == 0 then None
    else if e[0].0 == k then Some(e[0].1)
    else Find(e[1..], k)
  }

  /** `m[k] = v`: replaces the value of k, or inserts k at its place. */
  function Insert<V>(e: seq<(string, V)>, k: string, v: V): seq<(string, V)>
  {
    if |e| == 0 then [(k, v)]
    else if e[0].0 == k then [(k, v)] + e[1..]
    else if Less(k, e[0].0) then [(k, v)] + e
    else [e[0]] + Insert(e[1..], k, v)
  }

  lemma {:induction false} InsertKeys<V>(e: seq<(string, V)>, k: string, v: V)
    ensures Keys(Insert(e, k, v)) == Keys(e) + {k}
  {
    if |e| > 0 {
      if e[0].0 == k {
        assert ([(k, v)] + e[1..])[1..] == e[1..];
      } else if Less(k, e[0].0) {
        assert ([(k, v)] + e)[1..] == e;
      } else {
        InsertKeys(e[1..], k, v);
        assert ([e[0]] + Insert(e[1..], k, v))[1..] == Insert(e[1..], k, v);
      }
    }
  }

  /** Inserting keeps the order. */
  lemma {:induction false} InsertSorted<V>(e: seq<(string, V)>, k: string, v: V)
    requires Sorted(e)
    ensures Sorted(Insert(e, k, v))
  {
    if |e| > 0 && e[0].0 != k {
      if Less(k, e[0].0) {
        var r := [(k, v)] + e;
        forall i, j | 0 <= i < j < |r| ensures Less(r[i].0, r[j].0) {
          if i == 0 && j > 1 { LessTransitive(k, e[0].0, e[j - 1].0); }
        }
      } else {
        LessTotal(k, e[0].0);
        var t := Insert(e[1..], k, v);
        InsertSorted(e[1..], k, v);
        InsertKeys(e[1..], k, v);
        var r := [e[0]] + t;
        forall j | 0 <= j < |t| ensures Less(e[0].0, t[j].0) {
          var x := t[j].0;
          KeysIndex(t, x);
          if x != k {
            KeysIndex(e[1..], x);
            var i :| 0 <= i < |e[1..]| && e[1..][i].0 == x;
            assert e[i + 1].0 == x;
          }
        }
        forall i, j | 0 <= i < j < |r| ensures Less(r[i].0, r[j].0) {
          if i == 0 { assert r[j] == t[j - 1]; } else { assert r[i] == t[i - 1] && r[j] == t[j - 1]; }
        }
      }
    } else if |e| > 0 {
      var r := [(k, v)] + e[1..];
      forall i, j | 0 <= i < j < |r| ensures Less(r[i].0, r[j].0) {
        assert r[j] == e[j];
        if i > 0 { assert r[i] == e[i]; }
      }
    }
  }

  /** After `m[k] = v`, k finds v and every other key what it found before. */
  lemma {:induction false} FindInsert<V>(e: seq<(string, V)>, k: string, v: V, x: string)
    ensures Find(Insert(e, k, v), x) == if x == k then Some(v) else Find(e, x)
  {
    if |e| > 0 && e[0].0 != k && !Less(k, e[0].0) {
      FindInsert(e[1..], k, v, x);
      assert ([e[0]] + Insert(e[1..], k, v))[1..] == Insert(e[1..], k, v);
    } else if |e| > 0 && e[0].0 != k {
      assert ([(k, v)] + e)[1..] == e;
    } else if |e| > 0 {
      assert ([(k, v)] + e[1..])[1..] == e[1..];
    }
  }

  /** A key above every stored key goes to the end. */
  lemma {:induction false} InsertLast<V>(e: seq<(string, V)>, k: string, v: V)
    requires forall i :: 0 <= i < |e| ==> Less(e[i].0, k)
    ensures Insert(e, k, v) == e + [(k, v)]
  {
    if |e| > 0 {
      LessAsymmetric(e[0].0, k);
      InsertLast(e[1..], k, v);
      assert [e[0]] + (e[1..] + [(k, v)]) == e + [(k, v)];
    }
  }

  /** `m[k] = v` stores nothing but the old entries and (k, v). */
  lemma {:induction false} InsertMembers<V>(e: seq<(string, V)>, k: string, v: V, x: (string, V))
    requires x in Insert(e, k, v)
    ensures x in e || x == (k, v)
  {
    if |e| > 0 && e[0].0 != k && !Less(k, e[0].0) {
      if x != e[0] {
        InsertMembers(e[1..], k, v, x);
      }
    }
  }

  /** A sorted map split after the first entry of its second part: the
   *  entry moves to the first part, which stays sorted and below it. */
  lemma SortedSplit<V>(e: seq<(string, V)>, h: seq<(string, V)>)
    requires Sorted(e + h) && |h| > 0
    ensures Sorted(e + [h[0]]) && (e + [h[0]]) + h[1..] == e + h
    ensures forall i :: 0 <= i < |e| ==> Less(e[i].0, h[0].0)
  {
    assert (e + [h[0]]) + h[1..] == e + h;
    var eh := e + h;
    forall i | 0 <= i < |e| ensures Less(e[i].0, h[0].0) {
      assert eh[i] == e[i] && eh[|e|] == h[0];
    }
    var f := e + [h[0]];
    forall i, j | 0 <= i < j < |f| ensures Less(f[i].0, f[j].0) {
      assert f[i] == eh[i] && f[j] == eh[j];
    }
  }
}
