/** Anti-entropy: one device pages through another's register. Source: `page` in
    mosh-core/src/chat_names/mod.rs, asked for and answered in
    mosh-core/src/device_link/runtime/names.rs. */
module ChatNamesPaging {
  import opened Wrappers
  import opened Order
  import opened ChatNamesTypes
  import opened ChatNamesRegister
  import opened ChatNamesJoin

  /** Every reply from `after` on: a full page names its last key as the next
      `after`, a shorter one ends the pull. */
  ghost function Pages(entries: map<string, NameRecord>, after: Option<string>): (pages: seq<seq<NameRecord>>)
    requires Proper(entries)
    decreases |Past(entries.Keys, after)|
  {
    var page := Page(entries, after);
    if |page| < PAGE then [page]
    else
      RestIsSmaller(entries, after);
      [page] + Pages(entries, Some(page[PAGE - 1].key))
  }

  ghost function Flatten(pages: seq<seq<NameRecord>>): (r: seq<NameRecord>) {
    if pages == [] then [] else pages[0] + Flatten(pages[1..])
  }

  lemma LaterIsPast(s: seq<string>, n: nat, x: string)
    requires Ascending(s) && 0 < n <= |s| && x in s[n..]
    ensures x in s && Below(s[n - 1], x)
  {
    var i :| 0 <= i < |s[n..]| && s[n..][i] == x;
    assert s[n + i] == x && Below(s[n - 1], s[n + i]);
  }

  lemma PastIsLater(s: seq<string>, n: nat, x: string)
    requires Ascending(s) && 0 < n <= |s| && x in s && Below(s[n - 1], x)
    ensures x in s[n..]
  {
    var i :| 0 <= i < |s| && s[i] == x;
    if i < n - 1 {
      Asymmetric(s[i], s[n - 1]);
    }
    Irreflexive(s[n - 1]);
    assert s[n..][i - n] == x;
  }

  lemma LaterKeysArePast(keys: set<string>, n: nat, x: string)
    requires 0 < n <= |Sorted(keys)|
    ensures x in Sorted(keys)[n..] <==> x in Past(keys, Some(Sorted(keys)[n - 1]))
  {
    var s := Sorted(keys);
    if x in s[n..] {
      LaterIsPast(s, n, x);
    }
    if x in keys && Below(s[n - 1], x) {
      PastIsLater(s, n, x);
    }
  }

  lemma SuffixAscends(s: seq<string>, n: nat)
    requires Ascending(s) && n <= |s|
    ensures Ascending(s[n..])
  {
    forall i, j | 0 <= i < j < |s[n..]| ensures Below(s[n..][i], s[n..][j]) {
      assert Below(s[n + i], s[n + j]);
    }
  }

  /** What lies past the sixteenth key is the rest of the sorted keys. */
  lemma {:induction false} RestIsSorted(keys: set<string>, n: nat)
    requires 0 < n <= |Sorted(keys)|
    ensures Sorted(keys)[n..] == Sorted(Past(keys, Some(Sorted(keys)[n - 1])))
  {
    var rest := Past(keys, Some(Sorted(keys)[n - 1]));
    forall x ensures x in Sorted(keys)[n..] <==> x in Sorted(rest) {
      LaterKeysArePast(keys, n, x);
    }
    SuffixAscends(Sorted(keys), n);
    AscendingIsUnique(Sorted(keys)[n..], Sorted(rest));
  }

  /** Asking past a key that was already past `after` narrows the question. */
  lemma PastNarrows(keys: set<string>, after: Option<string>, k: string)
    requires k in Past(keys, after)
    ensures Past(keys, Some(k)) == Past(Past(keys, after), Some(k))
  {
    forall x | x in Past(keys, Some(k)) ensures x in Past(keys, after) {
      if after.Some? {
        Transitive(after.value, k, x);
      }
    }
  }

  lemma {:induction false} RestIsSmaller(entries: map<string, NameRecord>, after: Option<string>)
    requires Proper(entries) && |Page(entries, after)| == PAGE
    ensures var k := Page(entries, after)[PAGE - 1].key;
      && k == Sorted(Past(entries.Keys, after))[PAGE - 1]
      && k in Past(entries.Keys, after)
      && |Past(entries.Keys, Some(k))| < |Past(entries.Keys, after)|
  {
    var all := Past(entries.Keys, after);
    var keys := Sorted(all);
    var k := keys[PAGE - 1];
    assert k in keys;
    assert keys[..PAGE][PAGE - 1] == k;
    PastNarrows(entries.Keys, after, k);
    RestIsSorted(all, PAGE);
    assert |Sorted(Past(all, Some(k)))| == |keys| - PAGE;
  }

  lemma InOrderSplits(entries: map<string, NameRecord>, keys: seq<string>, n: nat)
    requires n <= |keys| && forall k :: k in keys ==> k in entries
    ensures (forall k :: k in keys[..n] ==> k in keys) && (forall k :: k in keys[n..] ==> k in keys)
    ensures InOrder(entries, keys) == InOrder(entries, keys[..n]) + InOrder(entries, keys[n..])
  {
  }

  lemma {:induction false} PagesUnfold(entries: map<string, NameRecord>, after: Option<string>)
    requires Proper(entries)
    ensures var page := Page(entries, after);
      if |page| < PAGE then Flatten(Pages(entries, after)) == page
      else Flatten(Pages(entries, after)) == page + Flatten(Pages(entries, Some(page[PAGE - 1].key)))
  {
    var page := Page(entries, after);
    if |page| < PAGE {
      assert Flatten([page]) == page + Flatten([]);
    } else {
      var rest := Pages(entries, Some(page[PAGE - 1].key));
      assert ([page] + rest)[1..] == rest;
    }
  }

  /** The pull ends, and its pages are the whole register: every entry past
      `after`, once, in key order. */
  lemma {:induction false} PagesCoverTheRegister(entries: map<string, NameRecord>, after: Option<string>)
    requires Proper(entries)
    ensures Flatten(Pages(entries, after)) == InOrder(entries, Sorted(Past(entries.Keys, after)))
    decreases |Past(entries.Keys, after)|
  {
    var all := Past(entries.Keys, after);
    var keys := Sorted(all);
    var page := Page(entries, after);
    PagesUnfold(entries, after);
    if |page| < PAGE {
      assert keys[..|keys|] == keys;
    } else {
      RestIsSmaller(entries, after);
      var k := page[PAGE - 1].key;
      PastNarrows(entries.Keys, after, k);
      RestIsSorted(all, PAGE);
      PagesCoverTheRegister(entries, Some(k));
      InOrderSplits(entries, keys, PAGE);
    }
  }

  /** Sixteen records fill a page, and only the last page is not full. */
  lemma {:induction false} PagesAreFull(entries: map<string, NameRecord>, after: Option<string>, k: nat)
    requires Proper(entries) && k < |Pages(entries, after)|
    ensures if k + 1 < |Pages(entries, after)| then |Pages(entries, after)[k]| == 16 else |Pages(entries, after)[k]| < 16
    decreases |Past(entries.Keys, after)|
  {
    var page := Page(entries, after);
    PagesUnfold(entries, after);
    if |page| == PAGE {
      RestIsSmaller(entries, after);
      if k > 0 {
        PagesAreFull(entries, Some(page[PAGE - 1].key), k - 1);
      }
    }
  }

  ghost function AbsorbPages(reg: Register, pages: seq<seq<NameRecord>>): (r: Result<Register, NameError>)
    decreases pages
  {
    if pages == [] then Ok(reg)
    else
      var next := AbsorbAll(reg, pages[0]);
      if next.Err? then next else AbsorbPages(next.value, pages[1..])
  }

  lemma {:induction false} AbsorbAllSplits(reg: Register, a: seq<NameRecord>, b: seq<NameRecord>)
    ensures AbsorbAll(reg, a + b) == if AbsorbAll(reg, a).Err? then AbsorbAll(reg, a) else AbsorbAll(AbsorbAll(reg, a).value, b)
  {
    if b == [] {
      assert a + b == a;
    } else {
      var front := b[..|b| - 1];
      assert (a + b)[..|a + b| - 1] == a + front;
      AbsorbAllSplits(reg, a, front);
    }
  }

  lemma {:induction false} PageByPage(reg: Register, pages: seq<seq<NameRecord>>)
    ensures AbsorbPages(reg, pages) == AbsorbAll(reg, Flatten(pages))
    decreases pages
  {
    if pages != [] {
      AbsorbAllSplits(reg, pages[0], Flatten(pages[1..]));
      if AbsorbAll(reg, pages[0]).Ok? {
        PageByPage(AbsorbAll(reg, pages[0]).value, pages[1..]);
      }
    }
  }

  lemma {:induction false} InOrderListsAll(entries: map<string, NameRecord>)
    ensures RecordSet(InOrder(entries, Sorted(Past(entries.Keys, None)))) == entries.Values
  {
    var keys := Sorted(Past(entries.Keys, None));
    var records := InOrder(entries, keys);
    forall r | r in records ensures r in entries.Values {
      var i :| 0 <= i < |records| && records[i] == r;
      assert entries[keys[i]] in entries.Values;
    }
    forall r | r in entries.Values ensures r in records {
      var k :| k in entries && entries[k] == r;
      assert k in keys;
      var i :| 0 <= i < |keys| && keys[i] == k;
      assert records[i] == r;
    }
  }

  /** Pulling another register page by page gives the entries one merge of the
      whole register would: the newer of the two, key by key. */
  lemma {:induction false} PullIsMerge(reg: Register, other: map<string, NameRecord>)
    requires Consistent(reg) && Proper(other) && KeyedAlike(reg.entries, other)
    ensures AbsorbPages(reg, Pages(other, None)).Ok?
    ensures AbsorbPages(reg, Pages(other, None)).value.entries == Maximum(reg.entries, other)
  {
    PagesCoverTheRegister(other, None);
    PageByPage(reg, Pages(other, None));
    InOrderListsAll(other);
    MergeIsMaximum(reg, other, InOrder(other, Sorted(Past(other.Keys, None))));
  }
}
