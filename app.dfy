/**
 * The feed and post rules of app.js: the episode id (`archivo`) read from an episode URL, the
 * in-place filter that drops episodes uploaded before, the conversion of the feed into the list
 * of episodes to upload, the caption cut to 200 characters, the tweet text, and the copies of the
 * text helpers. Fetching the feed, downloading, uploading and the database are not modelled:
 * the parsed feed and the stored episodes are inputs.
 */
module App {
  import opened Wrappers
  import opened JsString
  import opened NodePath
  import Helpers

  // ---------------------------------------------------------------------------------------------
  // archivo: link.substring(link.lastIndexOf("/") + 1, link.lastIndexOf(".mp3"))
  // ---------------------------------------------------------------------------------------------

  /** The episode id of an episode URL: what lies between the last `/` and the last `.mp3`, with the
      clamping and argument swapping of `substring`. */
  function Archivo(link: string): string {
    Substring(link, LastIndexOf(link, "/") + 1, LastIndexOf(link, ".mp3"))
  }

  /** For `<anything>/<name>.mp3` where `<name>` has no slash, the id is `<name>`. */
  lemma ArchivoOfEpisodeUrl(prefix: string, name: string)
    requires NoSlash(name)
    ensures Archivo(prefix + "/" + name + ".mp3") == name
  {
    var link := prefix + "/" + name + ".mp3";
    var j := |prefix|;
    var e := |prefix| + 1 + |name|;
    assert link[j] == '/';
    assert link[e..] == ".mp3";
    assert OccursAt(link, "/", j) by { assert link[j..j + 1] == [link[j]]; }
    forall k | j < k
      ensures !OccursAt(link, "/", k)
    {
      if k + 1 <= |link| {
        assert link[k..k + 1] == [link[k]];
        if k < e {
          assert link[k] == name[k - j - 1];
        } else {
          assert link[k] == ".mp3"[k - e];
        }
      }
    }
    assert OccursAt(link, ".mp3", e);
    LastIndexAt(link, "/", j);
    LastIndexAt(link, ".mp3", e);
    assert link[j + 1..e] == name;
  }

  /** A position where `p` occurs and after which it does not is what `lastIndexOf` finds. */
  lemma LastIndexAt(s: string, p: string, k: nat)
    requires OccursAt(s, p, k) && forall m :: k < m ==> !OccursAt(s, p, m)
    ensures LastIndexOf(s, p) == k
  {
    LastIndexOfMeaning(s, p);
    assert Contains(s, p);
  }

  /** Without `.mp3` in the link, `substring` swaps its arguments and the id is everything up to and
      including the last slash. */
  lemma ArchivoWithoutExtension(link: string)
    requires !Contains(link, ".mp3")
    ensures Archivo(link) == link[..LastIndexOf(link, "/") + 1]
  {
    var j := LastIndexOf(link, "/");
    LastIndexOfMeaning(link, ".mp3");
    LastIndexOfMeaning(link, "/");
    if j >= 0 {
      assert OccursAt(link, "/", j);
    }
  }

  // ---------------------------------------------------------------------------------------------
  // the feed
  // ---------------------------------------------------------------------------------------------

  /** An episode of the parsed RSS feed (the first element of each xml2js array). */
  datatype Item = Item(title: string, description: string, link: string, image: string)

  /** An episode already stored in the database. */
  datatype StoredPodcast = StoredPodcast(archivo: string)

  /** The parsed feed: its title and its episodes, which the filter removes in place. */
  class Feed {
    var title: string
    var items: seq<Item>

    constructor (title: string, items: seq<Item>)
      ensures this.title == title && this.items == items
    {
      this.title := title;
      this.items := items;
    }
  }


  /** The id the filter compares: the `archivo` of the episode's link. */
  function ArchivoOf(item: Item): string {
    Archivo(item.link)
  }

  // The filter and its properties are stated for any `key` naming the episodes; the program uses
  // ArchivoOf.

  /** The episodes whose key is not in `ids`, in their order. */
  function Keep(items: seq<Item>, key: Item -> string, ids: set<string>): (r: seq<Item>)
    ensures |r| <= |items|
  {
    if items == [] then []
    else (if key(items[0]) in ids then [] else [items[0]]) + Keep(items[1..], key, ids)
  }

  /** The ids of the stored episodes. */
  function StoredIds(stored: seq<StoredPodcast>): set<string> {
    set k | 0 <= k < |stored| :: stored[k].archivo
  }

  /** `items` with index `i` removed: `splice(i, 1)`. */
  function Splice(items: seq<Item>, i: nat): (r: seq<Item>)
    requires i < |items|
    ensures |r| == |items| - 1
  {
    items[..i] + items[i + 1..]
  }

  /** The inner loop for one stored id `a`, from index `i` on, as written: after a `splice` the index
      still advances, so the episode that moved into position `i` is not looked at. */
  function SplicePass(items: seq<Item>, key: Item -> string, a: string, i: nat): seq<Item>
    decreases |items| - i
  {
    if i >= |items| then items
    else if a == key(items[i]) then SplicePass(Splice(items, i), key, a, i + 1)
    else SplicePass(items, key, a, i + 1)
  }

  /** The outer loop: one pass per stored episode, in order. */
  function Filtered(items: seq<Item>, key: Item -> string, stored: seq<StoredPodcast>): seq<Item> {
    if stored == [] then items
    else SplicePass(Filtered(items, key, stored[..|stored| - 1]), key, stored[|stored| - 1].archivo, 0)
  }

  /** `ignoreUploadedPodcasts`, as written: for each stored episode, every feed episode with its id is
      spliced out, the index advancing after each removal. It always resolves with the feed. */
  method IgnoreUploadedPodcasts(feed: Feed, stored: seq<StoredPodcast>)
    modifies feed
    ensures feed.items == Filtered(old(feed.items), ArchivoOf, stored)
    ensures feed.title == old(feed.title)
  {
    ghost var original := feed.items;
    var s := 0;
    while s < |stored|
      invariant 0 <= s <= |stored|
      invariant feed.items == Filtered(original, ArchivoOf, stored[..s])
      invariant feed.title == old(feed.title)
    {
      var sp := stored[s];
      ghost var before := feed.items;
      var i := 0;
      while i < |feed.items|
        invariant 0 <= i
        invariant SplicePass(feed.items, ArchivoOf, sp.archivo, i) == SplicePass(before, ArchivoOf, sp.archivo, 0)
        invariant feed.title == old(feed.title)
        decreases |feed.items| - i
      {
        var archivoFeed := Archivo(feed.items[i].link);
        if sp.archivo == archivoFeed {
          feed.items := feed.items[..i] + feed.items[i + 1..];
        }
        i := i + 1;
      }
      assert stored[..s + 1][..s] == stored[..s];
      s := s + 1;
    }
    assert stored[..s] == stored;
  }

  // ---------------------------------------------------------------------------------------------
  // what the filter guarantees
  // ---------------------------------------------------------------------------------------------

  /** `xs` is `ys` with some elements left out, the rest in their order. */
  predicate Subseq(xs: seq<Item>, ys: seq<Item>)
    decreases |ys|
  {
    if xs == [] then true
    else if ys == [] then false
    else if xs[|xs| - 1] == ys[|ys| - 1] then Subseq(xs[..|xs| - 1], ys[..|ys| - 1])
    else Subseq(xs, ys[..|ys| - 1])
  }

  lemma {:induction false} SubseqRefl(xs: seq<Item>)
    ensures Subseq(xs, xs)
  {
    if xs != [] {
      SubseqRefl(xs[..|xs| - 1]);
    }
  }

  /** Adding an element at the end of the right side keeps a subsequence. */
  lemma {:induction false} SubseqDropLast(xs: seq<Item>, ys: seq<Item>)
    requires ys != [] && Subseq(xs, ys[..|ys| - 1])
    ensures Subseq(xs, ys)
    decreases |ys|, 0
  {
    if xs != [] && xs[|xs| - 1] == ys[|ys| - 1] {
      SubseqShorter(xs, ys[..|ys| - 1]);
    }
  }

  /** Dropping the last element of the left side keeps a subsequence. */
  lemma {:induction false} SubseqShorter(xs: seq<Item>, ys: seq<Item>)
    requires xs != [] && Subseq(xs, ys)
    ensures Subseq(xs[..|xs| - 1], ys)
    decreases |ys|, 1
  {
    var xs' := xs[..|xs| - 1];
    if xs' != [] {
      if xs[|xs| - 1] == ys[|ys| - 1] {
        SubseqDropLast(xs', ys);
      } else {
        SubseqShorter(xs, ys[..|ys| - 1]);
        SubseqDropLast(xs', ys);
      }
    }
  }

  lemma {:induction false} SubseqTrans(xs: seq<Item>, ys: seq<Item>, zs: seq<Item>)
    requires Subseq(xs, ys) && Subseq(ys, zs)
    ensures Subseq(xs, zs)
    decreases |zs|
  {
    if xs != [] && zs != [] {
      var zs' := zs[..|zs| - 1];
      if ys[|ys| - 1] == zs[|zs| - 1] {
        var ys' := ys[..|ys| - 1];
        if xs[|xs| - 1] == ys[|ys| - 1] {
          SubseqTrans(xs[..|xs| - 1], ys', zs');
        } else {
          SubseqTrans(xs, ys', zs');
          SubseqDropLast(xs, zs);
        }
      } else {
        SubseqTrans(xs, ys, zs');
        SubseqDropLast(xs, zs);
      }
    }
  }

  /** Around a splice: what precedes index `i` stays, what follows moves down by one. */
  lemma SpliceView(items: seq<Item>, i: nat)
    requires i < |items|
    ensures Splice(items, i)[..i] == items[..i] && Splice(items, i)[i..] == items[i + 1..]
    ensures items[..i + 1] == items[..i] + [items[i]] && items[i..][1..] == items[i + 1..]
  {
  }

  /** A splice leaves a subsequence. */
  lemma {:induction false} SpliceSubseq(items: seq<Item>, i: nat)
    requires i < |items|
    ensures Subseq(Splice(items, i), items)
    decreases |items|
  {
    var n := |items| - 1;
    if i == n {
      assert Splice(items, i) == items[..n];
      SubseqRefl(items[..n]);
      SubseqDropLast(items[..n], items);
    } else {
      var r := Splice(items, i);
      assert r[|r| - 1] == items[n];
      assert r[..|r| - 1] == Splice(items[..n], i);
      SpliceSubseq(items[..n], i);
    }
  }

  /** A splice removes one occurrence of the element at `i`. */
  lemma SpliceMultiset(items: seq<Item>, i: nat)
    requires i < |items|
    ensures multiset(items) == multiset(Splice(items, i)) + multiset{items[i]}
  {
    assert items == items[..i] + [items[i]] + items[i + 1..];
  }

  /** One pass keeps the episodes it does not remove, in their order. */
  lemma {:induction false} SplicePassSubseq(items: seq<Item>, key: Item -> string, a: string, i: nat)
    ensures Subseq(SplicePass(items, key, a, i), items)
    decreases |items| - i
  {
    if i >= |items| {
      SubseqRefl(items);
    } else if a == key(items[i]) {
      var items' := Splice(items, i);
      SplicePassSubseq(items', key, a, i + 1);
      SpliceSubseq(items, i);
      SubseqTrans(SplicePass(items', key, a, i + 1), items', items);
    } else {
      SplicePassSubseq(items, key, a, i + 1);
    }
  }

  /** One pass removes only episodes with id `a`. */
  lemma {:induction false} SplicePassCounts(items: seq<Item>, key: Item -> string, a: string, i: nat)
    ensures forall x :: key(x) != a ==> multiset(SplicePass(items, key, a, i))[x] == multiset(items)[x]
    decreases |items| - i
  {
    if i < |items| {
      if a == key(items[i]) {
        SplicePassCounts(Splice(items, i), key, a, i + 1);
        SpliceMultiset(items, i);
      } else {
        SplicePassCounts(items, key, a, i + 1);
      }
    }
  }

  lemma StoredIdsSnoc(stored: seq<StoredPodcast>)
    requires stored != []
    ensures StoredIds(stored) == StoredIds(stored[..|stored| - 1]) + {stored[|stored| - 1].archivo}
  {
    var pre := stored[..|stored| - 1];
    assert forall k :: 0 <= k < |pre| ==> pre[k] == stored[k];
  }

  /** The filter keeps the surviving episodes in their order and removes only episodes whose id is
      stored: an episode with any other id keeps all its occurrences. */
  lemma {:induction false} FilteredKeeps(items: seq<Item>, key: Item -> string, stored: seq<StoredPodcast>)
    ensures Subseq(Filtered(items, key, stored), items)
    ensures forall x :: key(x) !in StoredIds(stored) ==>
      multiset(Filtered(items, key, stored))[x] == multiset(items)[x]
  {
    if stored == [] {
      SubseqRefl(items);
    } else {
      var pre := stored[..|stored| - 1];
      var a := stored[|stored| - 1].archivo;
      FilteredKeeps(items, key, pre);
      SplicePassSubseq(Filtered(items, key, pre), key, a, 0);
      SplicePassCounts(Filtered(items, key, pre), key, a, 0);
      SubseqTrans(Filtered(items, key, stored), Filtered(items, key, pre), items);
      StoredIdsSnoc(stored);
    }
  }

  // ---------------------------------------------------------------------------------------------
  // distinct ids: the filter removes every stored episode
  // ---------------------------------------------------------------------------------------------

  /** No two episodes share a key. */
  predicate DistinctIds(items: seq<Item>, key: Item -> string) {
    forall p, q :: 0 <= p < q < |items| ==> key(items[p]) != key(items[q])
  }

  /** Keeping distributes over concatenation. */
  lemma {:induction false} KeepConcat(xs: seq<Item>, ys: seq<Item>, key: Item -> string, ids: set<string>)
    ensures Keep(xs + ys, key, ids) == Keep(xs, key, ids) + Keep(ys, key, ids)
  {
    if xs == [] {
      assert xs + ys == ys;
    } else {
      assert (xs + ys)[0] == xs[0] && (xs + ys)[1..] == xs[1..] + ys;
      KeepConcat(xs[1..], ys, key, ids);
    }
  }

  lemma KeepCons(x: Item, ys: seq<Item>, key: Item -> string, ids: set<string>)
    ensures Keep([x] + ys, key, ids) == (if key(x) in ids then [] else [x]) + Keep(ys, key, ids)
  {
    assert ([x] + ys)[1..] == ys;
  }

  lemma KeepSnoc(xs: seq<Item>, y: Item, key: Item -> string, ids: set<string>)
    ensures Keep(xs + [y], key, ids) == Keep(xs, key, ids) + (if key(y) in ids then [] else [y])
  {
    KeepConcat(xs, [y], key, ids);
    assert [y][1..] == [];
  }

  /** Keeping one more element of a prefix. */
  lemma KeepPrefixStep(items: seq<Item>, j: nat, key: Item -> string, a: string)
    requires j < |items|
    ensures Keep(items[..j + 1], key, {a}) == Keep(items[..j], key, {a}) + (if key(items[j]) == a then [] else [items[j]])
  {
    assert items[..j + 1] == items[..j] + [items[j]];
    KeepSnoc(items[..j], items[j], key, {a});
  }

  lemma KeepNone(items: seq<Item>, key: Item -> string)
    ensures Keep(items, key, {}) == items
  {
  }

  lemma SpliceDistinct(items: seq<Item>, key: Item -> string, i: nat)
    requires DistinctIds(items, key) && i < |items|
    ensures DistinctIds(Splice(items, i), key)
  {
    var items' := Splice(items, i);
    forall p, q | 0 <= p < q < |items'|
      ensures key(items'[p]) != key(items'[q])
    {
      var p0 := if p < i then p else p + 1;
      var q0 := if q < i then q else q + 1;
      assert items'[p] == items[p0] && items'[q] == items[q0];
    }
  }

  /** The step of SplicePassDistinct at a removed episode: its successor has another key. */
  lemma SplicePassDistinctRemoved(items: seq<Item>, key: Item -> string, a: string, i: nat)
    requires DistinctIds(items, key) && i < |items| && a == key(items[i])
    requires i + 1 < |items| ==>
      SplicePass(Splice(items, i), key, a, i + 1) == Splice(items, i)[..i + 1] + Keep(Splice(items, i)[i + 1..], key, {a})
    ensures SplicePass(items, key, a, i) == items[..i] + Keep(items[i..], key, {a})
  {
    var items' := Splice(items, i);
    assert items[i..] == [items[i]] + items[i + 1..];
    KeepCons(items[i], items[i + 1..], key, {a});
    if i + 1 < |items| {
      assert key(items[i + 1]) != a;
      assert items'[..i + 1] == items[..i] + [items[i + 1]];
      assert items'[i + 1..] == items[i + 2..];
      assert items[i + 1..] == [items[i + 1]] + items[i + 2..];
      KeepCons(items[i + 1], items[i + 2..], key, {a});
    } else {
      assert items[i + 1..] == [];
      assert items' == items[..i];
    }
  }

  /** The step of SplicePassDistinct at a kept episode. */
  lemma SplicePassDistinctKept(items: seq<Item>, key: Item -> string, a: string, i: nat)
    requires i < |items| && a != key(items[i])
    requires SplicePass(items, key, a, i + 1) == items[..i + 1] + Keep(items[i + 1..], key, {a})
    ensures SplicePass(items, key, a, i) == items[..i] + Keep(items[i..], key, {a})
  {
    assert items[i..] == [items[i]] + items[i + 1..];
    KeepCons(items[i], items[i + 1..], key, {a});
    assert items[..i + 1] == items[..i] + [items[i]];
  }

  /** With distinct ids the pass as written removes exactly the episodes with id `a`: an episode
      that moves into the removed one's place never has id `a`, so skipping it changes nothing. */
  lemma {:induction false} SplicePassDistinct(items: seq<Item>, key: Item -> string, a: string, i: nat)
    requires DistinctIds(items, key) && i <= |items|
    ensures SplicePass(items, key, a, i) == items[..i] + Keep(items[i..], key, {a})
    decreases |items| - i
  {
    if i == |items| {
      assert items[i..] == [];
      assert items[..i] == items;
    } else if a == key(items[i]) {
      SpliceDistinct(items, key, i);
      if i + 1 < |items| {
        SplicePassDistinct(Splice(items, i), key, a, i + 1);
      }
      SplicePassDistinctRemoved(items, key, a, i);
    } else {
      SplicePassDistinct(items, key, a, i + 1);
      SplicePassDistinctKept(items, key, a, i);
    }
  }

  /** What is kept keeps distinct keys, and holds only episodes of the input with keys outside `ids`. */
  lemma {:induction false} KeepDistinct(items: seq<Item>, key: Item -> string, ids: set<string>)
    requires DistinctIds(items, key)
    ensures DistinctIds(Keep(items, key, ids), key)
    ensures forall x :: x in Keep(items, key, ids) ==> x in items && key(x) !in ids
  {
    if items != [] {
      var rest := items[1..];
      assert DistinctIds(rest, key) by {
        forall p, q | 0 <= p < q < |rest|
          ensures key(rest[p]) != key(rest[q])
        {
          assert rest[p] == items[p + 1] && rest[q] == items[q + 1];
        }
      }
      KeepDistinct(rest, key, ids);
      var k := Keep(rest, key, ids);
      forall x | x in k
        ensures key(x) != key(items[0])
      {
        var q :| 0 <= q < |rest| && rest[q] == x;
        assert items[q + 1] == x;
      }
      if key(items[0]) !in ids {
        ConsDistinct(items[0], k, key);
      }
    }
  }

  lemma ConsDistinct(x: Item, k: seq<Item>, key: Item -> string)
    requires DistinctIds(k, key) && forall y :: y in k ==> key(y) != key(x)
    ensures DistinctIds([x] + k, key)
  {
    var r := [x] + k;
    forall p, q | 0 <= p < q < |r|
      ensures key(r[p]) != key(r[q])
    {
      assert r[q] == k[q - 1];
      if p > 0 {
        assert r[p] == k[p - 1];
      }
    }
  }

  lemma {:induction false} KeepKeep(items: seq<Item>, key: Item -> string, ids: set<string>, a: string)
    ensures Keep(Keep(items, key, ids), key, {a}) == Keep(items, key, ids + {a})
  {
    if items != [] {
      KeepKeep(items[1..], key, ids, a);
      if key(items[0]) !in ids {
        KeepCons(items[0], Keep(items[1..], key, ids), key, {a});
      } else {
        assert Keep(items, key, ids) == Keep(items[1..], key, ids);
      }
    }
  }

  /** With distinct ids in the feed, the filter as written removes exactly the stored episodes. */
  lemma {:induction false} FilteredDistinct(items: seq<Item>, key: Item -> string, stored: seq<StoredPodcast>)
    requires DistinctIds(items, key)
    ensures Filtered(items, key, stored) == Keep(items, key, StoredIds(stored))
    ensures forall x :: x in Filtered(items, key, stored) ==> key(x) !in StoredIds(stored)
  {
    FilteredIsKeep(items, key, stored);
    KeepDistinct(items, key, StoredIds(stored));
  }

  lemma {:induction false} FilteredIsKeep(items: seq<Item>, key: Item -> string, stored: seq<StoredPodcast>)
    requires DistinctIds(items, key)
    ensures Filtered(items, key, stored) == Keep(items, key, StoredIds(stored))
  {
    if stored == [] {
      assert StoredIds(stored) == {};
      KeepNone(items, key);
    } else {
      var pre := stored[..|stored| - 1];
      var a := stored[|stored| - 1].archivo;
      var kept := Keep(items, key, StoredIds(pre));
      FilteredIsKeep(items, key, pre);
      KeepDistinct(items, key, StoredIds(pre));
      SplicePassDistinct(kept, key, a, 0);
      assert kept[..0] == [] && kept[0..] == kept;
      KeepKeep(items, key, StoredIds(pre), a);
      StoredIdsSnoc(stored);
    }
  }

  // ---------------------------------------------------------------------------------------------
  // the skipped episode, and the filter that was meant
  // ---------------------------------------------------------------------------------------------

  /** Two neighbouring episodes with the same stored id: the filter as written removes the first,
      and the second, moved into its place, is skipped and survives. */
  lemma AdjacentDuplicateSurvives(x: Item, y: Item)
    requires ArchivoOf(x) == ArchivoOf(y)
    ensures Filtered([x, y], ArchivoOf, [StoredPodcast(ArchivoOf(x))]) == [y]
    ensures Keep([x, y], ArchivoOf, {ArchivoOf(x)}) == []
  {
    var a := ArchivoOf(x);
    var stored := [StoredPodcast(a)];
    assert stored[..0] == [];
    assert Splice([x, y], 0) == [y];
    assert SplicePass([x, y], ArchivoOf, a, 0) == SplicePass([y], ArchivoOf, a, 1);
    assert [x, y][1..] == [y];
  }

  /** Such episodes exist: two links to the same file name. */
  lemma DuplicateLinksExist(name: string, p: string, q: string)
    requires NoSlash(name)
    ensures ArchivoOf(Item("", "", p + "/" + name + ".mp3", "")) == ArchivoOf(Item("", "", q + "/" + name + ".mp3", ""))
  {
    ArchivoOfEpisodeUrl(p, name);
    ArchivoOfEpisodeUrl(q, name);
  }

  /** The filter as intended: after a `splice` the index stays where it is, so every episode with a
      stored id is removed. */
  method RemoveUploadedPodcasts(feed: Feed, stored: seq<StoredPodcast>)
    modifies feed
    ensures feed.items == Keep(old(feed.items), ArchivoOf, StoredIds(stored))
    ensures feed.title == old(feed.title)
  {
    ghost var original := feed.items;
    KeepNone(original, ArchivoOf);
    assert StoredIds(stored[..0]) == {};
    var s := 0;
    while s < |stored|
      invariant 0 <= s <= |stored|
      invariant feed.items == Keep(original, ArchivoOf, StoredIds(stored[..s]))
      invariant feed.title == old(feed.title)
    {
      ghost var before := feed.items;
      RemoveStored(feed, stored[s].archivo);
      KeepKeep(original, ArchivoOf, StoredIds(stored[..s]), stored[s].archivo);
      assert stored[..s + 1][..s] == stored[..s];
      StoredIdsSnoc(stored[..s + 1]);
      s := s + 1;
    }
    assert stored[..s] == stored;
  }

  /** The inner loop as intended, for one stored id. */
  method RemoveStored(feed: Feed, a: string)
    modifies feed
    ensures feed.items == Keep(old(feed.items), ArchivoOf, {a})
    ensures feed.title == old(feed.title)
  {
    ghost var before := feed.items;
    ghost var j := 0;
    var i := 0;
    while i < |feed.items|
      invariant 0 <= i <= |feed.items| && 0 <= j <= |before|
      invariant feed.items[..i] == Keep(before[..j], ArchivoOf, {a})
      invariant feed.items[i..] == before[j..]
      invariant feed.title == old(feed.title)
      decreases |feed.items| - i
    {
      KeepPrefixStep(before, j, ArchivoOf, a);
      SpliceView(feed.items, i);
      assert feed.items[i] == before[j];
      var archivoFeed := Archivo(feed.items[i].link);
      if a == archivoFeed {
        feed.items := feed.items[..i] + feed.items[i + 1..];
      } else {
        i := i + 1;
      }
      j := j + 1;
    }
    assert before[..j] == before;
  }

  // ---------------------------------------------------------------------------------------------
  // parseFeed
  // ---------------------------------------------------------------------------------------------

  /** An episode in the form the uploader uses. */
  datatype ParsedItem = ParsedItem(title: string, desc: string, url: string, archivo: string, imagen: string)

  /** What `parseFeed` resolves with. */
  datatype ParsedFeed = ParsedFeed(title: string, parsedFeed: seq<ParsedItem>)

  function ParseItem(item: Item): ParsedItem {
    ParsedItem(item.title, item.description, item.link, Archivo(item.link), item.image)
  }

  /** `parseFeed`: one parsed episode per feed episode, in order, or the rejection
      `[<title> parseFeed, Nothing to upload]` when the feed has none. */
  method ParseFeed(feed: Feed) returns (r: Result<ParsedFeed, seq<string>>)
    ensures r.Success? <==> feed.items != []
    ensures r.Success? ==> r.value.title == feed.title && |r.value.parsedFeed| == |feed.items|
    ensures r.Success? ==> forall k :: 0 <= k < |feed.items| ==> r.value.parsedFeed[k] == ParseItem(feed.items[k])
    ensures r.Failure? ==> r.error == [feed.title + " parseFeed", "Nothing to upload"]
  {
    var rawFeed := feed.items;
    var parsedFeed := [];
    var title := feed.title;
    for k := 0 to |rawFeed|
      invariant |parsedFeed| == k
      invariant forall m :: 0 <= m < k ==> parsedFeed[m] == ParseItem(rawFeed[m])
    {
      var item := rawFeed[k];
      var imagen := item.image;
      var parsedItem := ParsedItem(item.title, item.description, item.link,
        Substring(item.link, LastIndexOf(item.link, "/") + 1, LastIndexOf(item.link, ".mp3")), imagen);
      parsedFeed := parsedFeed + [parsedItem];
    }
    if |parsedFeed| > 0 {
      r := Success(ParsedFeed(title, parsedFeed));
    } else {
      r := Failure([title + " parseFeed", "Nothing to upload"]);
    }
  }

  // ---------------------------------------------------------------------------------------------
  // sendFeedToTelegram: caption and download path
  // ---------------------------------------------------------------------------------------------

  const DownloadDir := "./downloads/"
  const CaptionLimit := 200

  /** The caption of an episode: the bold title and the description, cut to 197 characters and
      `...` when it is longer than 200. */
  method Caption(title: string, desc: string) returns (content: string)
    ensures |content| <= CaptionLimit
    ensures var full := "<b>" + title + "</b>\n" + desc;
      (|full| <= CaptionLimit ==> content == full) &&
      (|full| > CaptionLimit ==> |content| == CaptionLimit && content == full[..197] + "...")
  {
    content := "<b>" + title + "</b>\n" + desc;
    if |content| > 200 {
      content := Substring(content, 0, 197);
      content := content + "...";
    }
  }

  /** Where an episode is downloaded: `./downloads/<folder>/<episode>.mp3`. */
  function EpisodePath(feedTitle: string, title: string): string {
    DownloadDir + SanitizeContent(feedTitle) + "/" + SanitizeEpisode(title) + ".mp3"
  }

  /** The downloaded file is `<episode>.mp3`, with `<episode>` the sanitised title: it has no slash,
      so it stays one file directly inside `./downloads/<folder>/`, whatever the title holds. */
  lemma EpisodeFileName(feedTitle: string, title: string)
    ensures var p := EpisodePath(feedTitle, title);
      var name := SanitizeEpisode(title) + ".mp3";
      NoSlash(name) && p[..|p| - |name|] == DownloadDir + SanitizeContent(feedTitle) + "/" &&
      LastSlash(p) == |p| - |name| - 1
  {
    SanitizeEpisodeAgrees(title);
    Mp3InFolder(DownloadDir + SanitizeContent(feedTitle), SanitizeEpisode(title));
  }

  /** `<dir>/<episode>.mp3` with a slash-free episode name: the file name follows the last slash. */
  lemma Mp3InFolder(dir: string, episode: string)
    requires NoSlash(episode)
    ensures var p := dir + "/" + episode + ".mp3";
      var name := episode + ".mp3";
      NoSlash(name) && p[..|p| - |name|] == dir + "/" && LastSlash(p) == |p| - |name| - 1
  {
    var name := episode + ".mp3";
    assert NoSlash(name) by {
      forall k | 0 <= k < |name|
        ensures name[k] != '/'
      {
        if k >= |episode| {
          assert name[k] == ".mp3"[k - |episode|];
        }
      }
    }
    assert dir + "/" + episode + ".mp3" == (dir + "/") + name;
    LastSlashOfSuffix(dir + "/", name);
  }

  // ---------------------------------------------------------------------------------------------
  // the text helpers, written out again in app.js
  // ---------------------------------------------------------------------------------------------

  function SanitizeEpisode(episodeTitle: string): string {
    Trim(ReplaceAll(episodeTitle, {'/'}, "-"))
  }

  /** `sanitizeContent` for a string: the chained replacements as written. */
  function SanitizeContent(str: string): string {
    ReplaceAll(ReplaceAll(ReplaceAll(ReplaceAll(ReplaceAll(ReplaceAll(ReplaceAll(ReplaceAll(ReplaceAll(ReplaceAll(ReplaceAll(
      str, {'"'}, "&quot;"), {'&'}, "&amp;"), {'<'}, "&lt;"), {'>'}, "&gt;"), {'\''}, ""), {' '}, "_"),
      {'á', 'Á'}, "a"), {'é', 'É'}, "e"), {'í', 'Í'}, "i"), {'ó', 'Ó'}, "o"), {'ú', 'Ú'}, "u")
  }

  /** The copy of `sanitizeEpisode` agrees with the helper, so its result has no `/`. */
  lemma SanitizeEpisodeAgrees(episodeTitle: string)
    ensures SanitizeEpisode(episodeTitle) == Helpers.SanitizeEpisode(episodeTitle)
    ensures NoSlash(SanitizeEpisode(episodeTitle))
  {
    var r := Helpers.SanitizeEpisode(episodeTitle);
    assert forall k :: 0 <= k < |r| ==> r[k] in r;
  }

  /** The copy of `sanitizeContent` agrees with the helper, so quotes, angle brackets, spaces and
      accented vowels never reach a folder name. */
  lemma SanitizeContentAgrees(str: string)
    ensures SanitizeContent(str) == Helpers.SanitizeContent(str)
    ensures forall c :: c in SanitizeContent(str) ==> c !in Helpers.Removed()
  {
    SanitizeContentIsChain(str, Helpers.ContentPasses);
    Helpers.SanitizeContentRemoves(str);
  }

  /** The chain as written applies the helper's passes in their order. */
  lemma SanitizeContentIsChain(str: string, passes: seq<Helpers.Pass>)
    requires passes == Helpers.ContentPasses
    ensures SanitizeContent(str) == Helpers.ApplyPasses(str, passes)
  {
  }

  // ---------------------------------------------------------------------------------------------
  // tweet
  // ---------------------------------------------------------------------------------------------

  const Cuerpo := "\nTe lo perdiste? Está en Telegram: "
  const Hashtags := "\n#DelSolEnTelegram #DelSol"
  const StatusLimit := 280

  /** The link to the Telegram post: the channel name loses its first character (the `@`). */
  function TelegramUrl(canal: string, messageId: string): string {
    "https://t.me/" + Substr(canal, 1, |canal|) + "/" + messageId
  }

  /** The text of the tweet, as `tweet` composes it: the full text when it fits in 280 characters;
      otherwise the body is dropped, and when even that is 278 or more the title is cut. */
  function TweetStatus(messageId: string, titulo: string, canal: string): string {
    var canal := Substr(canal, 1, |canal|);
    var url := "https://t.me/" + canal + "/" + messageId;
    var status := titulo + Cuerpo + url + Hashtags;
    if |status| > 280 then
      if |titulo| + |url| + |Hashtags| < 278 then titulo + "\n" + url + Hashtags
      else
        var n := |titulo| + |url| + |Hashtags| + 2;
        var n := n - 280;
        var n := |titulo| - n - 3;
        var titulo := Substr(titulo, 0, n) + "...";
        titulo + "\n" + url + Hashtags
    else status
  }

  lemma TextLengths()
    ensures |Cuerpo| == 35 && |Hashtags| == 26
  {
  }

  /** With the fixed texts counted out, the two guards are bounds on the title and the url alone:
      the full status is too long exactly when they exceed 219 characters, and the body alone is
      dropped exactly when they are under 252. */
  lemma TweetThresholds(messageId: string, titulo: string, canal: string)
    ensures var url := TelegramUrl(canal, messageId);
      (|titulo + Cuerpo + url + Hashtags| > StatusLimit <==> |titulo| + |url| > 219) &&
      (|titulo| + |url| + |Hashtags| < 278 <==> |titulo| + |url| < 252) &&
      275 - |url| - |Hashtags| == 249 - |url|
  {
    TextLengths();
  }

  /** The url drops the first character of the channel name. */
  lemma TelegramUrlShape(canal: string, messageId: string)
    ensures canal != [] ==> TelegramUrl(canal, messageId) == "https://t.me/" + canal[1..] + "/" + messageId
    ensures canal == [] ==> TelegramUrl(canal, messageId) == "https://t.me//" + messageId
  {
  }

  /** A status that fits is the title, the body, the url and the hashtags. */
  lemma TweetFull(messageId: string, titulo: string, canal: string)
    requires |titulo + Cuerpo + TelegramUrl(canal, messageId) + Hashtags| <= StatusLimit
    ensures TweetStatus(messageId, titulo, canal) == titulo + Cuerpo + TelegramUrl(canal, messageId) + Hashtags
  {
  }

  /** Too long, but short enough without the body: title, url and hashtags, at most 278 long. */
  lemma TweetWithoutBody(messageId: string, titulo: string, canal: string)
    requires |titulo + Cuerpo + TelegramUrl(canal, messageId) + Hashtags| > StatusLimit
    requires |titulo| + |TelegramUrl(canal, messageId)| + |Hashtags| < 278
    ensures TweetStatus(messageId, titulo, canal) == titulo + "\n" + TelegramUrl(canal, messageId) + Hashtags
    ensures |TweetStatus(messageId, titulo, canal)| <= 278
  {
  }

  /** Otherwise the title is cut to `275 - |url| - |hashtags|` characters (none when that is
      negative) and `...` is added; the status is then exactly 279 long when the url leaves room. */
  lemma TweetTruncated(messageId: string, titulo: string, canal: string)
    requires |titulo + Cuerpo + TelegramUrl(canal, messageId) + Hashtags| > StatusLimit
    requires |titulo| + |TelegramUrl(canal, messageId)| + |Hashtags| >= 278
    ensures var url := TelegramUrl(canal, messageId);
      var n := 275 - |url| - |Hashtags|;
      n <= |titulo| - 3 &&
      TweetStatus(messageId, titulo, canal) == (if n >= 0 then titulo[..n] else "") + "..." + "\n" + url + Hashtags &&
      (n >= 0 ==> |TweetStatus(messageId, titulo, canal)| == 279)
  {
  }

  /** Whatever the title, the tweet fits in 280 characters when the url is at most 250 long. */
  lemma TweetFits(messageId: string, titulo: string, canal: string)
    requires |TelegramUrl(canal, messageId)| <= 250
    ensures |TweetStatus(messageId, titulo, canal)| <= StatusLimit
  {
    var url := TelegramUrl(canal, messageId);
    if |titulo + Cuerpo + url + Hashtags| > StatusLimit && |titulo| + |url| + |Hashtags| >= 278 {
      TweetTruncated(messageId, titulo, canal);
    }
  }
}
