/** Compose-ID extraction and ordering (`get_compose_ids` without the fetch
    and the HTML parsing): the `href` targets of a listing page go in, the
    IDs of one target come out newest first. */
module ComposeIds {
  import opened Outcomes
  import opened Text

  /** `{name}-{version}-`, taken literally: every compose ID of a target starts with it. */
  function IdPrefix(name: string, version: string): string {
    name + "-" + version + "-"
  }

  /** An ID of the target: the prefix, then no `/`. */
  predicate IsComposeId(id: string, name: string, version: string) {
    var p := IdPrefix(name, version);
    StartsWith(id, p) && '/' !in id[|p|..]
  }

  /** What `^({name}-{version}-[^/]*)` matches in one `href`: present exactly
      when the href starts with the prefix, and then the longest start of the
      href that is an ID, so it stops at the first `/` after the prefix. */
  function MatchId(href: string, name: string, version: string): (r: Option<string>)
    ensures r.Some? <==> StartsWith(href, IdPrefix(name, version))
    ensures r.Some? ==> IsComposeId(r.value, name, version) && StartsWith(href, r.value)
    ensures r.Some? && |r.value| < |href| ==> href[|r.value|] == '/'
  {
    var p := IdPrefix(name, version);
    if StartsWith(href, p) then
      var id := p + TakeUntil(href[|p|..], '/');
      assert id[|p|..] == TakeUntil(href[|p|..], '/');
      Some(id)
    else
      None
  }

  /** The matches of the listing's hrefs, in listing order, duplicates kept:
      each one an ID of the target. */
  function ExtractIds(hrefs: seq<string>, name: string, version: string): (ids: seq<string>)
    ensures |ids| <= |hrefs|
    ensures forall i :: 0 <= i < |ids| ==> IsComposeId(ids[i], name, version)
  {
    if |hrefs| == 0 then []
    else
      var rest := ExtractIds(hrefs[1..], name, version);
      match MatchId(hrefs[0], name, version)
      case Some(id) => [id] + rest
      case None => rest
  }

  /** Extraction treats each href on its own: the matches of a listing are
      the matches of its first part followed by those of the rest. */
  lemma {:induction false} ExtractIdsAppend(a: seq<string>, b: seq<string>, name: string, version: string)
    ensures ExtractIds(a + b, name, version) == ExtractIds(a, name, version) + ExtractIds(b, name, version)
    decreases |a|
  {
    if |a| > 0 {
      assert (a + b)[1..] == a[1..] + b;
      ExtractIdsAppend(a[1..], b, name, version);
    } else {
      assert a + b == b;
    }
  }

  /** One href contributes its match when it starts with `{name}-{version}-`
      and nothing otherwise; with `ExtractIdsAppend` this fixes the
      extraction of every listing. */
  lemma ExtractIdsOne(h: string, name: string, version: string)
    ensures ExtractIds([h], name, version) ==
      if StartsWith(h, IdPrefix(name, version)) then [MatchId(h, name, version).value] else []
  {
    assert [h][1..] == [];
  }

  /** A string is extracted exactly when it is the match of some href. */
  lemma {:induction false} ExtractIdsMembers(hrefs: seq<string>, name: string, version: string, id: string)
    ensures id in ExtractIds(hrefs, name, version) <==> exists h :: h in hrefs && MatchId(h, name, version) == Some(id)
    decreases |hrefs|
  {
    if |hrefs| > 0 {
      ExtractIdsMembers(hrefs[1..], name, version, id);
      assert hrefs == [hrefs[0]] + hrefs[1..];
      if exists h :: h in hrefs && MatchId(h, name, version) == Some(id) {
        var h :| h in hrefs && MatchId(h, name, version) == Some(id);
        if h != hrefs[0] {
          assert h in hrefs[1..];
        }
      }
    }
  }

  /** The sort key, `str.lower`. */
  function Key(id: string): string {
    Lower(id)
  }

  /** Non-increasing by key: no ID has a smaller key than a later one. */
  predicate SortedDesc(s: seq<string>) {
    forall i, j :: 0 <= i < j < |s| ==> !Less(Key(s[i]), Key(s[j]))
  }

  /** The IDs of `s` whose key is `k`, in their order in `s`. A sort is
      stable exactly when it keeps every one of these subsequences. */
  function WithKey(s: seq<string>, k: string): seq<string> {
    if |s| == 0 then []
    else (if Key(s[0]) == k then [s[0]] else []) + WithKey(s[1..], k)
  }

  lemma NotLessTransitive(a: string, b: string, c: string)
    requires !Less(a, b) && !Less(b, c)
    ensures !Less(a, c)
  {
    LessTotal(a, b);
    if Less(b, a) && Less(a, c) {
      LessTransitive(b, a, c);
    }
  }

  /** `x` placed in front of every ID whose key is not above its own. */
  function Insert(x: string, t: seq<string>): seq<string> {
    if |t| == 0 || !Less(Key(x), Key(t[0])) then [x] + t
    else [t[0]] + Insert(x, t[1..])
  }

  lemma {:induction false} InsertDominated(a: string, x: string, t: seq<string>)
    requires !Less(Key(a), Key(x))
    requires forall j :: 0 <= j < |t| ==> !Less(Key(a), Key(t[j]))
    ensures forall j :: 0 <= j < |Insert(x, t)| ==> !Less(Key(a), Key(Insert(x, t)[j]))
    decreases |t|
  {
    if |t| > 0 && Less(Key(x), Key(t[0])) {
      InsertDominated(a, x, t[1..]);
    }
  }

  /** Inserting into a sorted list adds `x` and nothing else, keeps the list
      sorted, and puts `x` ahead of the IDs that share its key. */
  lemma InsertFacts(x: string, t: seq<string>)
    requires SortedDesc(t)
    ensures multiset(Insert(x, t)) == multiset(t) + multiset{x}
    ensures SortedDesc(Insert(x, t))
    ensures forall k :: WithKey(Insert(x, t), k) == (if Key(x) == k then [x] else []) + WithKey(t, k)
  {
    InsertMultiset(x, t);
    InsertSorted(x, t);
    forall k
      ensures WithKey(Insert(x, t), k) == (if Key(x) == k then [x] else []) + WithKey(t, k)
    {
      InsertWithKey(x, t, k);
    }
  }

  lemma {:induction false} InsertMultiset(x: string, t: seq<string>)
    ensures multiset(Insert(x, t)) == multiset(t) + multiset{x}
    decreases |t|
  {
    if |t| > 0 && Less(Key(x), Key(t[0])) {
      assert t == [t[0]] + t[1..];
      InsertMultiset(x, t[1..]);
    }
  }

  lemma {:induction false} InsertSorted(x: string, t: seq<string>)
    requires SortedDesc(t)
    ensures SortedDesc(Insert(x, t))
    decreases |t|
  {
    var r := Insert(x, t);
    if |t| == 0 || !Less(Key(x), Key(t[0])) {
      assert r[1..] == t;
      forall i, j | 0 <= i < j < |r|
        ensures !Less(Key(r[i]), Key(r[j]))
      {
        if i == 0 && j > 1 {
          NotLessTransitive(Key(x), Key(t[0]), Key(t[j - 1]));
        }
      }
    } else {
      var t0, rest := t[0], t[1..];
      InsertSorted(x, rest);
      var u := Insert(x, rest);
      assert r == [t0] + u && r[1..] == u;
      LessAsymmetric(Key(x), Key(t0));
      InsertDominated(t0, x, rest);
      forall i, j | 0 <= i < j < |r|
        ensures !Less(Key(r[i]), Key(r[j]))
      {
        if i > 0 {
          assert r[i] == u[i - 1] && r[j] == u[j - 1];
        }
      }
    }
  }

  lemma {:induction false} InsertWithKey(x: string, t: seq<string>, k: string)
    ensures WithKey(Insert(x, t), k) == (if Key(x) == k then [x] else []) + WithKey(t, k)
    decreases |t|
  {
    var r := Insert(x, t);
    if |t| == 0 || !Less(Key(x), Key(t[0])) {
      assert r[1..] == t;
    } else {
      InsertWithKey(x, t[1..], k);
      assert r[1..] == Insert(x, t[1..]);
      if Key(x) == k {
        LessIrreflexive(k);
      }
    }
  }

  /** `sorted(ids, key=str.lower, reverse=True)`: Python's stable sort. */
  function SortDesc(s: seq<string>): (r: seq<string>)
    ensures multiset(r) == multiset(s)
    ensures SortedDesc(r)
    ensures forall k :: WithKey(r, k) == WithKey(s, k)
    decreases |s|
  {
    if |s| == 0 then []
    else
      var rest := SortDesc(s[1..]);
      InsertFacts(s[0], rest);
      assert s == [s[0]] + s[1..];
      Insert(s[0], rest)
  }

  lemma {:induction false} WithKeyWitness(s: seq<string>, k: string)
    requires |WithKey(s, k)| > 0
    ensures exists j :: 0 <= j < |s| && Key(s[j]) == k
    decreases |s|
  {
    if Key(s[0]) != k {
      WithKeyWitness(s[1..], k);
      var j :| 0 <= j < |s[1..]| && Key(s[1..][j]) == k;
      assert Key(s[j + 1]) == k;
    }
  }

  lemma WithKeyOfHead(s: seq<string>)
    requires |s| > 0
    ensures WithKey(s, Key(s[0])) == [s[0]] + WithKey(s[1..], Key(s[0]))
  {
  }

  /** Two sorted lists with the same per-key subsequences start with the same ID. */
  lemma SameHead(a: seq<string>, b: seq<string>)
    requires SortedDesc(a) && SortedDesc(b) && |a| > 0 && |b| > 0
    requires forall k :: WithKey(a, k) == WithKey(b, k)
    ensures a[0] == b[0]
  {
    var ka, kb := Key(a[0]), Key(b[0]);
    assert WithKey(b, ka) == WithKey(a, ka);
    WithKeyWitness(b, ka);
    var jb :| 0 <= jb < |b| && Key(b[jb]) == ka;
    assert !Less(kb, ka) by {
      if jb > 0 {
        assert !Less(Key(b[0]), Key(b[jb]));
      } else {
        LessIrreflexive(ka);
      }
    }
    assert WithKey(a, kb) == WithKey(b, kb);
    WithKeyWitness(a, kb);
    var ja :| 0 <= ja < |a| && Key(a[ja]) == kb;
    assert !Less(ka, kb) by {
      if ja > 0 {
        assert !Less(Key(a[0]), Key(a[ja]));
      } else {
        LessIrreflexive(kb);
      }
    }
    LessTotal(ka, kb);
    assert a[0] == WithKey(a, ka)[0] == WithKey(b, ka)[0] == b[0];
  }

  /** Dropping a shared head keeps the per-key subsequences equal. */
  lemma SameTails(a: seq<string>, b: seq<string>)
    requires |a| > 0 && |b| > 0 && a[0] == b[0]
    requires forall k :: WithKey(a, k) == WithKey(b, k)
    ensures forall k :: WithKey(a[1..], k) == WithKey(b[1..], k)
  {
    forall k
      ensures WithKey(a[1..], k) == WithKey(b[1..], k)
    {
      var pre := if Key(a[0]) == k then [a[0]] else [];
      assert WithKey(a, k) == pre + WithKey(a[1..], k);
      assert WithKey(b, k) == pre + WithKey(b[1..], k);
      assert WithKey(a[1..], k) == WithKey(a, k)[|pre|..];
    }
  }

  /** There is only one stable non-increasing arrangement: two sorted lists
      that agree on the order of every key's IDs are the same list. */
  lemma {:induction false} SortedArrangementUnique(a: seq<string>, b: seq<string>)
    requires SortedDesc(a) && SortedDesc(b)
    requires forall k :: WithKey(a, k) == WithKey(b, k)
    ensures a == b
    decreases |a|
  {
    if |a| == 0 && |b| > 0 {
      WithKeyOfHead(b);
      assert false;
    } else if |a| > 0 && |b| == 0 {
      WithKeyOfHead(a);
      assert false;
    } else if |a| > 0 {
      SameHead(a, b);
      SameTails(a, b);
      SortedArrangementUnique(a[1..], b[1..]);
      assert a == [a[0]] + a[1..];
      assert b == [b[0]] + b[1..];
    }
  }

  /** `get_compose_ids` once the listing's hrefs are known: every ID is one
      of the target's, the list is a permutation of the matches with
      duplicates kept, it is non-increasing by lower-cased ID, and IDs with
      the same lower-cased form keep their listing order. */
  function GetComposeIds(hrefs: seq<string>, name: string, version: string): (ids: seq<string>)
    ensures multiset(ids) == multiset(ExtractIds(hrefs, name, version))
    ensures SortedDesc(ids)
    ensures forall k :: WithKey(ids, k) == WithKey(ExtractIds(hrefs, name, version), k)
    ensures forall i :: 0 <= i < |ids| ==> IsComposeId(ids[i], name, version)
  {
    var found := ExtractIds(hrefs, name, version);
    var ids := SortDesc(found);
    assert forall i :: 0 <= i < |ids| ==> ids[i] in multiset(found);
    ids
  }

  /** The order `get_compose_ids` returns is the only stable non-increasing
      arrangement of the matches. */
  lemma GetComposeIdsIsTheStableOrder(hrefs: seq<string>, name: string, version: string, order: seq<string>)
    requires SortedDesc(order)
    requires forall k :: WithKey(order, k) == WithKey(ExtractIds(hrefs, name, version), k)
    ensures order == GetComposeIds(hrefs, name, version)
  {
    SortedArrangementUnique(order, GetComposeIds(hrefs, name, version));
  }
}
