/** The sorted-merge comparison of two record lists: what it counts, what it writes and what it leaves out. */
module VerifyDiff {

  /** A record; `os` and `oo` are the texts from which the ids were made and take no part in comparisons. */
  datatype Record = Record(s: nat, p: string, o: nat, v: string, os: string, oo: string)

  datatype Key = Key(s: nat, p: string, o: nat, v: string)

  function KeyOf(r: Record): Key {
    Key(r.s, r.p, r.o, r.v)
  }

  predicate Equal(a: Record, b: Record) {
    !(a.s != b.s || a.p != b.p || a.o != b.o || a.v != b.v)
  }

  /** Byte-wise lexicographic order, as Go compares strings. */
  predicate StringLess(a: string, b: string) {
    b != "" && (a == "" || a[0] < b[0] || (a[0] == b[0] && StringLess(a[1..], b[1..])))
  }

  /** One text is below another if it is a proper beginning of it, or has the smaller character where they first
      differ. */
  lemma {:induction false} StringLessIff(a: string, b: string)
    ensures StringLess(a, b) <==>
            (a < b || exists i :: 0 <= i < |a| && i < |b| && a[..i] == b[..i] && a[i] < b[i])
  {
    if a != "" && b != "" && a[0] == b[0] {
      var u, v := a[1..], b[1..];
      StringLessIff(u, v);
      assert a == [a[0]] + u && b == [b[0]] + v;
      if i :| 0 <= i < |u| && i < |v| && u[..i] == v[..i] && u[i] < v[i] {
        assert a[..i + 1] == [a[0]] + u[..i] && b[..i + 1] == [b[0]] + v[..i];
        assert a[i + 1] < b[i + 1];
      }
      if i :| 0 <= i < |a| && i < |b| && a[..i] == b[..i] && a[i] < b[i] {
        assert u[..i - 1] == a[..i][1..] && v[..i - 1] == b[..i][1..] && u[i - 1] < v[i - 1];
      }
    } else if a != "" && b != "" {
      assert a[..0] == b[..0];
      if i :| 0 <= i < |a| && i < |b| && a[..i] == b[..i] && a[i] < b[i] {
        assert i > 0 ==> a[..i][0] == b[..i][0];
      }
    }
  }

  /** The four fields that make two records the same. */
  predicate SameFields(a: Record, b: Record) {
    a.s == b.s && a.p == b.p && a.o == b.o && a.v == b.v
  }

  /** Records are ordered by subject, then predicate, then object, then value. */
  lemma LessByFields(a: Record, b: Record)
    ensures Less(a, b) <==>
            || a.s < b.s || (a.s == b.s && StringLess(a.p, b.p))
            || (a.s == b.s && a.p == b.p && a.o < b.o)
            || (a.s == b.s && a.p == b.p && a.o == b.o && StringLess(a.v, b.v))
    ensures Equal(a, b) <==> SameFields(a, b)
    ensures KeyOf(a) == KeyOf(b) <==> SameFields(a, b)
  {
    StringOrder(a.p, b.p);
  }

  predicate Less(a: Record, b: Record) {
    KeyLess(KeyOf(a), KeyOf(b))
  }

  predicate KeyLess(a: Key, b: Key) {
    if a.s != b.s then a.s < b.s
    else if a.p != b.p then StringLess(a.p, b.p)
    else if a.o != b.o then a.o < b.o
    else StringLess(a.v, b.v)
  }

  //
  // The order is total, and equality is equality of keys
  //

  lemma {:induction false} StringOrder(a: string, b: string)
    ensures if a == b then !StringLess(a, b) else StringLess(a, b) != StringLess(b, a)
  {
    if a != "" && b != "" && a[0] == b[0] {
      StringOrder(a[1..], b[1..]);
      assert a == [a[0]] + a[1..] && b == [b[0]] + b[1..];
    }
  }

  lemma {:induction false} StringTransitive(a: string, b: string, c: string)
    requires StringLess(a, b) && StringLess(b, c)
    ensures StringLess(a, c)
  {
    if a != "" && a[0] == b[0] == c[0] {
      StringTransitive(a[1..], b[1..], c[1..]);
    }
  }

  lemma KeyOrder(a: Key, b: Key)
    ensures if a == b then !KeyLess(a, b) else KeyLess(a, b) != KeyLess(b, a)
  {
    StringOrder(a.p, b.p);
    StringOrder(a.v, b.v);
  }

  lemma KeyTransitive(a: Key, b: Key, c: Key)
    requires KeyLess(a, b) && KeyLess(b, c)
    ensures KeyLess(a, c)
  {
    if a.s == b.s == c.s {
      if a.p != b.p && b.p != c.p {
        StringTransitive(a.p, b.p, c.p);
      }
      StringOrder(a.p, c.p);
      if a.v != b.v && b.v != c.v && StringLess(a.v, b.v) && StringLess(b.v, c.v) {
        StringTransitive(a.v, b.v, c.v);
      }
      StringOrder(a.v, b.v);
      StringOrder(b.v, c.v);
    }
  }

  //
  // Lists as multisets of keys
  //

  /** `part` is `whole` with some records left out, the others in their order. */
  predicate Subsequence(part: seq<Record>, whole: seq<Record>)
    decreases |whole|
  {
    part == []
    || (whole != [] && (Subsequence(part, whole[..|whole| - 1])
                        || (part[|part| - 1] == whole[|whole| - 1]
                            && Subsequence(part[..|part| - 1], whole[..|whole| - 1]))))
  }

  lemma SubsequenceSkips(part: seq<Record>, whole: seq<Record>, r: Record)
    requires Subsequence(part, whole)
    ensures Subsequence(part, whole + [r]) && Subsequence(part + [r], whole + [r])
  {
    assert (whole + [r])[..|whole|] == whole && (part + [r])[..|part|] == part;
  }

  function Keys(l: seq<Record>): multiset<Key> {
    if l == [] then multiset{} else Keys(l[..|l| - 1]) + multiset{KeyOf(l[|l| - 1])}
  }

  predicate Sorted(l: seq<Record>) {
    forall i, j :: 0 <= i < j < |l| ==> !Less(l[j], l[i])
  }

  lemma KeysSnoc(l: seq<Record>, r: Record)
    ensures Keys(l + [r]) == Keys(l) + multiset{KeyOf(r)}
  {
    assert (l + [r])[..|l|] == l;
  }

  lemma {:induction false} KeysConcat(a: seq<Record>, b: seq<Record>)
    ensures Keys(a + b) == Keys(a) + Keys(b)
    decreases |b|
  {
    if b == [] {
      assert a + b == a;
    } else {
      var n := |b| - 1;
      var init, last := b[..n], b[n];
      assert b == init + [last] && a + b == (a + init) + [last];
      hide Keys;
      KeysConcat(a, init);
      KeysSnoc(init, last);
      KeysSnoc(a + init, last);
    }
  }

  lemma {:induction false} KeysHave(l: seq<Record>, k: Key)
    ensures k in Keys(l) <==> exists i :: 0 <= i < |l| && KeyOf(l[i]) == k
    decreases |l|
  {
    if l != [] {
      hide Keys;
      var n := |l| - 1;
      var init := l[..n];
      assert l == init + [l[n]];
      KeysSnoc(init, l[n]);
      KeysHave(init, k);
      if i :| 0 <= i < |l| && KeyOf(l[i]) == k {
        assert i < n ==> KeyOf(init[i]) == k;
      }
      if i :| 0 <= i < n && KeyOf(init[i]) == k {
        assert KeyOf(l[i]) == k;
      }
    }
  }

  /** `k` is below every record from `from` on. */
  predicate BelowRest(k: Key, l: seq<Record>, from: nat) {
    forall i :: from <= i < |l| ==> KeyLess(k, KeyOf(l[i]))
  }

  /** What has been read: `a` and `b` are the keys read from the source and from the destination. Surplus keys are
      behind everything still unread on the other side, so no later record can match them. */
  ghost predicate Merged(src: seq<Record>, dst: seq<Record>, ps: nat, ds: nat, a: multiset<Key>, b: multiset<Key>) {
    && ps <= |src| && ds <= |dst| && a == Keys(src[..ps]) && b == Keys(dst[..ds])
    && (forall k :: a[k] < b[k] ==> BelowRest(k, src, ps))
    && (forall k :: a[k] > b[k] ==> BelowRest(k, dst, ds) && exists j :: 0 <= j < |dst| && KeyLess(k, KeyOf(dst[j])))
    && (forall i, j :: ps <= i < |src| && 0 <= j < ds ==> !Less(src[i], dst[j]))
  }

  lemma Read(l: seq<Record>, n: nat)
    requires n < |l|
    ensures Keys(l[..n + 1]) == Keys(l[..n]) + multiset{KeyOf(l[n])}
  {
    assert l[..n + 1][..n] == l[..n];
  }

  /** Nothing unread is below the next record. */
  lemma NextIsLeast(l: seq<Record>, n: nat, k: Key)
    requires Sorted(l) && n < |l| && (k == KeyOf(l[n]) || KeyLess(k, KeyOf(l[n])))
    ensures forall i :: n <= i < |l| ==> !KeyLess(KeyOf(l[i]), k)
    ensures KeyLess(k, KeyOf(l[n])) ==> BelowRest(k, l, n)
  {
    hide KeyLess;
    forall i | n <= i < |l|
      ensures !KeyLess(KeyOf(l[i]), k) && (KeyLess(k, KeyOf(l[n])) ==> KeyLess(k, KeyOf(l[i])))
    {
      var x, y := KeyOf(l[n]), KeyOf(l[i]);
      assert i > n ==> !Less(l[i], l[n]);
      KeyOrder(x, y);
      KeyOrder(y, k);
      if KeyLess(k, x) && KeyLess(x, y) {
        KeyTransitive(k, x, y);
      }
      if KeyLess(y, k) && KeyLess(k, x) {
        KeyTransitive(y, k, x);
      }
    }
  }

  lemma MatchStep(src: seq<Record>, dst: seq<Record>, ps: nat, ds: nat, a: multiset<Key>, b: multiset<Key>)
    requires Sorted(src) && Sorted(dst) && Merged(src, dst, ps, ds, a, b) && ps < |src| && ds < |dst|
    requires Equal(src[ps], dst[ds])
    ensures var k := multiset{KeyOf(src[ps])};
            Merged(src, dst, ps + 1, ds + 1, a + k, b + k)
            && (a + k) - (b + k) == a - b && |(a + k) * (b + k)| == |a * b| + 1
  {
    hide KeyLess, Keys;
    Read(src, ps);
    Read(dst, ds);
    var x := KeyOf(src[ps]);
    NextIsLeast(src, ps, x);
    assert (a + multiset{x}) * (b + multiset{x}) == a * b + multiset{x};
    KeyOrder(x, x);
  }

  lemma SourceStep(src: seq<Record>, dst: seq<Record>, ps: nat, ds: nat, a: multiset<Key>, b: multiset<Key>)
    requires Sorted(src) && Sorted(dst) && Merged(src, dst, ps, ds, a, b) && ps < |src| && ds < |dst|
    requires Less(src[ps], dst[ds])
    ensures var k := multiset{KeyOf(src[ps])};
            Merged(src, dst, ps + 1, ds, a + k, b) && (a + k) - b == (a - b) + k && (a + k) * b == a * b
  {
    hide KeyLess, Keys;
    Read(src, ps);
    var x := KeyOf(src[ps]);
    NextIsLeast(dst, ds, x);
    KeyOrder(x, x);
    assert a[x] >= b[x];
    assert (a + multiset{x}) - b == (a - b) + multiset{x};
    assert (a + multiset{x}) * b == a * b;
  }

  lemma DestStep(src: seq<Record>, dst: seq<Record>, ps: nat, ds: nat, a: multiset<Key>, b: multiset<Key>)
    requires Sorted(src) && Sorted(dst) && Merged(src, dst, ps, ds, a, b) && ps < |src| && ds < |dst|
    requires Less(dst[ds], src[ps])
    ensures var k := multiset{KeyOf(dst[ds])};
            Merged(src, dst, ps, ds + 1, a, b + k) && a - (b + k) == a - b && a * (b + k) == a * b
  {
    hide KeyLess, Keys;
    Read(dst, ds);
    var x := KeyOf(dst[ds]);
    NextIsLeast(src, ps, x);
    KeyOrder(x, x);
    assert a[x] <= b[x];
    assert a - (b + multiset{x}) == a - b;
    assert a * (b + multiset{x}) == a * b;
  }

  lemma MergeStart(src: seq<Record>, dst: seq<Record>)
    ensures Merged(src, dst, 0, 0, multiset{}, multiset{})
  {
  }

  /** When one list is used up: matches are the common keys, and what was written together with the source's
      unread tail is the difference. */
  lemma MergeEnd(src: seq<Record>, dst: seq<Record>, ps: nat, ds: nat, a: multiset<Key>, b: multiset<Key>)
    requires Merged(src, dst, ps, ds, a, b) && (ps == |src| || ds == |dst|)
    ensures |a * b| == |Keys(src) * Keys(dst)|
    ensures (a - b) + Keys(src[ps..]) == Keys(src) - Keys(dst)
  {
    hide KeyLess, Keys;
    var s, t := Keys(src[ps..]), Keys(dst[ds..]);
    KeysConcat(src[..ps], src[ps..]);
    KeysConcat(dst[..ds], dst[ds..]);
    assert src == src[..ps] + src[ps..] && dst == dst[..ds] + dst[ds..];
    forall k
      ensures a[k] < b[k] ==> s[k] == 0
      ensures a[k] > b[k] ==> t[k] == 0
    {
      KeyOrder(k, k);
      KeysHave(src[ps..], k);
      KeysHave(dst[ds..], k);
    }
    TailKeys(src[ps..]);
    TailKeys(dst[ds..]);
    UsedUp(a, b, s, t);
  }

  lemma UsedUp(a: multiset<Key>, b: multiset<Key>, s: multiset<Key>, t: multiset<Key>)
    requires forall k :: (a[k] < b[k] ==> s[k] == 0) && (a[k] > b[k] ==> t[k] == 0)
    requires s == multiset{} || t == multiset{}
    ensures (a + s) * (b + t) == a * b && (a + s) - (b + t) == (a - b) + s
  {
  }

  /** The source's last record outnumbers its matches and no destination record is greater: it cannot be passed. */
  ghost predicate LastIsStuck(src: seq<Record>, dst: seq<Record>) {
    src != [] && (var k := KeyOf(src[|src| - 1]);
                  Keys(src)[k] > Keys(dst)[k] && forall j :: 0 <= j < |dst| ==> !KeyLess(k, KeyOf(dst[j])))
  }

  lemma TailIffStuck(src: seq<Record>, dst: seq<Record>, ps: nat, ds: nat, a: multiset<Key>, b: multiset<Key>)
    requires Sorted(src) && Sorted(dst) && Merged(src, dst, ps, ds, a, b) && (ps == |src| || ds == |dst|)
    ensures ps < |src| <==> LastIsStuck(src, dst)
  {
    hide KeyLess, Keys;
    KeysConcat(dst[..ds], dst[ds..]);
    assert dst == dst[..ds] + dst[ds..];
    if ps == |src| {
      assert src[..ps] == src;
    } else {
      var last := |src| - 1;
      var k := KeyOf(src[last]);
      KeysConcat(src[..ps], src[ps..]);
      assert src == src[..ps] + src[ps..] && dst[..ds] == dst;
      KeysHave(src[ps..], k);
      assert KeyOf(src[ps..][last - ps]) == k;
      KeyOrder(k, k);
      assert a[k] >= b[k];
      assert forall j :: 0 <= j < |dst| ==> !Less(src[last], dst[j]);
    }
  }

  /** The merge loop. `written` is the content of the output file, one record a line. The source's unread tail is
      never written, so the file is the whole difference exactly when the last source record is not stuck. */
  method Compare(srcl: seq<Record>, dstl: seq<Record>)
    returns (matches: nat, written: seq<Record>, ghost unread: seq<Record>)
    ensures forall r :: r in written ==> r in srcl
    ensures Sorted(srcl) && Sorted(dstl) ==> matches == |Keys(srcl) * Keys(dstl)|
    ensures Sorted(srcl) && Sorted(dstl) ==> Keys(written) + Keys(unread) == Keys(srcl) - Keys(dstl)
    ensures Sorted(srcl) && Sorted(dstl) ==>
              (Keys(written) == Keys(srcl) - Keys(dstl) <==> !LastIsStuck(srcl, dstl))
    ensures |unread| <= |srcl| && unread == srcl[|srcl| - |unread|..]
    ensures Subsequence(written, srcl[..|srcl| - |unread|])
    ensures forall r :: r in srcl ==> r in written || r in unread || exists d :: d in dstl && SameFields(r, d)
    ensures Sorted(srcl) && Sorted(dstl) ==>
              (matches > 0 <==> exists r, d :: r in srcl && d in dstl && SameFields(r, d))
    ensures Sorted(srcl) && Sorted(dstl) ==> Fields(written) + Fields(unread) == Fields(srcl) - Fields(dstl)
  {
    hide KeyLess, Less, Keys, Merged, LastIsStuck, Subsequence, Accounted, SameFields, Fields;
    var ps, ds := 0, 0;
    matches, written := 0, [];
    ghost var sorted := Sorted(srcl) && Sorted(dstl);
    ghost var a: multiset<Key>, b: multiset<Key> := multiset{}, multiset{};
    MergeStart(srcl, dstl);
    AccountedStart(srcl, dstl);
    assert Keys([]) == multiset{} by { KeysOfNothing(); }
    hide Sorted;
    while ps < |srcl| && ds < |dstl|
      invariant ps <= |srcl| && ds <= |dstl| && Accounted(srcl, dstl, ps, written)
      invariant sorted ==> Merged(srcl, dstl, ps, ds, a, b) && matches == |a * b| && Keys(written) == a - b
      decreases |srcl| + |dstl| - ps - ds
    {
      var s, d := srcl[ps], dstl[ds];
      LessByFields(s, d);
      if Equal(s, d) {
        if sorted {
          MatchStep(srcl, dstl, ps, ds, a, b);
        }
        AccountedMatch(srcl, dstl, ps, ds, written);
        a, b := a + multiset{KeyOf(s)}, b + multiset{KeyOf(s)};
        matches := matches + 1;
        ps, ds := ps + 1, ds + 1;
      } else if Less(s, d) {
        if sorted {
          SourceStep(srcl, dstl, ps, ds, a, b);
        }
        AccountedWrite(srcl, dstl, ps, written);
        a := a + multiset{KeyOf(s)};
        KeysSnoc(written, s);
        written := written + [s];
        ps := ps + 1;
      } else {
        NotLess(s, d);
        if sorted {
          DestStep(srcl, dstl, ps, ds, a, b);
        }
        b := b + multiset{KeyOf(d)};
        ds := ds + 1;
      }
    }
    unread := srcl[ps..];
    AccountedEnd(srcl, dstl, ps, written);
    if sorted {
      Results(srcl, dstl, ps, ds, a, b, written);
    }
  }

  /** What holds of the records read so far, sorted or not: they are written in their order, or have a match. */
  ghost predicate Accounted(src: seq<Record>, dst: seq<Record>, ps: nat, written: seq<Record>) {
    && ps <= |src| && Subsequence(written, src[..ps]) && (forall r :: r in written ==> r in src)
    && forall i :: 0 <= i < ps ==> src[i] in written || exists d :: d in dst && SameFields(src[i], d)
  }

  lemma AccountedStart(src: seq<Record>, dst: seq<Record>)
    ensures Accounted(src, dst, 0, [])
  {
  }

  lemma AccountedMatch(src: seq<Record>, dst: seq<Record>, ps: nat, ds: nat, written: seq<Record>)
    requires Accounted(src, dst, ps, written) && ps < |src| && ds < |dst| && SameFields(src[ps], dst[ds])
    ensures Accounted(src, dst, ps + 1, written)
  {
    hide Subsequence, SameFields;
    assert src[..ps + 1] == src[..ps] + [src[ps]] && dst[ds] in dst;
    SubsequenceSkips(written, src[..ps], src[ps]);
  }

  lemma AccountedWrite(src: seq<Record>, dst: seq<Record>, ps: nat, written: seq<Record>)
    requires Accounted(src, dst, ps, written) && ps < |src|
    ensures Accounted(src, dst, ps + 1, written + [src[ps]])
  {
    hide Subsequence, SameFields;
    assert src[..ps + 1] == src[..ps] + [src[ps]];
    SubsequenceSkips(written, src[..ps], src[ps]);
  }

  lemma AccountedEnd(src: seq<Record>, dst: seq<Record>, ps: nat, written: seq<Record>)
    requires Accounted(src, dst, ps, written)
    ensures Subsequence(written, src[..ps]) && forall r :: r in written ==> r in src
    ensures forall r :: r in src ==> r in written || r in src[ps..] || exists d :: d in dst && SameFields(r, d)
  {
    hide Subsequence, SameFields;
    forall r | r in src
      ensures r in written || r in src[ps..] || exists d :: d in dst && SameFields(r, d)
    {
      var i :| 0 <= i < |src| && src[i] == r;
      assert i >= ps ==> src[ps..][i - ps] == r;
    }
  }

  lemma Results(src: seq<Record>, dst: seq<Record>, ps: nat, ds: nat, a: multiset<Key>, b: multiset<Key>,
                written: seq<Record>)
    requires Sorted(src) && Sorted(dst) && Merged(src, dst, ps, ds, a, b) && (ps == |src| || ds == |dst|)
    requires Keys(written) == a - b && ps <= |src|
    ensures |a * b| == |Keys(src) * Keys(dst)|
    ensures Keys(written) + Keys(src[ps..]) == Keys(src) - Keys(dst)
    ensures Keys(written) == Keys(src) - Keys(dst) <==> !LastIsStuck(src, dst)
    ensures |a * b| > 0 <==> exists r, d :: r in src && d in dst && SameFields(r, d)
    ensures Fields(written) + Fields(src[ps..]) == Fields(src) - Fields(dst)
  {
    hide KeyLess, Less, Keys, Merged, LastIsStuck, SameFields, Fields, Sorted;
    MergeEnd(src, dst, ps, ds, a, b);
    TailIffStuck(src, dst, ps, ds, a, b);
    TailKeys(src[ps..]);
    WholeIff(Keys(written), Keys(src[ps..]), Keys(src) - Keys(dst));
    CommonIff(src, dst);
    FieldsDiffer(src, dst, written, src[ps..]);
  }

  /** Two lists have keys in common exactly when some records of theirs agree in the four fields. */
  lemma CommonIff(a: seq<Record>, b: seq<Record>)
    ensures |Keys(a) * Keys(b)| > 0 <==> exists r, d :: r in a && d in b && SameFields(r, d)
  {
    hide Keys, SameFields;
    var common := Keys(a) * Keys(b);
    if |common| > 0 {
      var k :| k in common;
      KeysHave(a, k);
      KeysHave(b, k);
      var i, j :| 0 <= i < |a| && KeyOf(a[i]) == k && 0 <= j < |b| && KeyOf(b[j]) == k;
      LessByFields(a[i], b[j]);
    }
    if r, d :| r in a && d in b && SameFields(r, d) {
      LessByFields(r, d);
      KeysHave(a, KeyOf(r));
      KeysHave(b, KeyOf(r));
      assert KeyOf(r) in common;
    }
  }

  /** The records of a list by the four fields alone, each as often as it occurs. */
  function Fields(l: seq<Record>): multiset<(nat, string, nat, string)> {
    if l == [] then multiset{} else
      var r := l[|l| - 1];
      Fields(l[..|l| - 1]) + multiset{(r.s, r.p, r.o, r.v)}
  }

  lemma {:induction false} FieldsAreKeys(l: seq<Record>, x: (nat, string, nat, string))
    ensures Fields(l)[x] == Keys(l)[Key(x.0, x.1, x.2, x.3)]
    decreases |l|
  {
    if l != [] {
      FieldsAreKeys(l[..|l| - 1], x);
    }
  }

  lemma FieldsDiffer(a: seq<Record>, b: seq<Record>, written: seq<Record>, unread: seq<Record>)
    requires Keys(written) + Keys(unread) == Keys(a) - Keys(b)
    ensures Fields(written) + Fields(unread) == Fields(a) - Fields(b)
  {
    hide Keys, Fields;
    forall x
      ensures (Fields(written) + Fields(unread))[x] == (Fields(a) - Fields(b))[x]
    {
      FieldsAreKeys(a, x);
      FieldsAreKeys(b, x);
      FieldsAreKeys(written, x);
      FieldsAreKeys(unread, x);
      var k := Key(x.0, x.1, x.2, x.3);
      assert (Keys(written) + Keys(unread))[k] == (Keys(a) - Keys(b))[k];
    }
  }

  lemma WholeIff(part: multiset<Key>, rest: multiset<Key>, whole: multiset<Key>)
    requires part + rest == whole
    ensures part == whole <==> rest == multiset{}
  {
    assert |whole| == |part| + |rest|;
  }

  lemma KeysOfNothing()
    ensures Keys([]) == multiset{}
  {
  }

  lemma NotLess(s: Record, d: Record)
    requires !Equal(s, d) && !Less(s, d)
    ensures Less(d, s)
  {
    KeyOrder(KeyOf(s), KeyOf(d));
  }

  lemma TailKeys(l: seq<Record>)
    ensures Keys(l) == multiset{} <==> l == []
  {
    if l != [] {
      KeysHave(l, KeyOf(l[0]));
    }
  }
}
