/** A list of records with ids, read as an insertion-ordered map. */
module RecordLists {
  datatype Entry<+Content> = Entry(id: string, content: Content)

  /** The last position of every id. */
  function IndexOf<C>(rs: seq<Entry<C>>): (index: map<string, nat>)
    ensures forall id :: id in index ==> index[id] < |rs|
  {
    if rs == [] then map[] else IndexOf(rs[..|rs| - 1])[rs[|rs| - 1].id := |rs| - 1]
  }

  /** What a lookup by id sees. */
  function View<C>(rs: seq<Entry<C>>): map<string, Entry<C>> {
    map id | id in IndexOf(rs) :: rs[IndexOf(rs)[id]]
  }

  /** Overwrites the record an id was last seen at, or adds a new one at the end. */
  function Put<C>(rs: seq<Entry<C>>, r: Entry<C>): seq<Entry<C>> {
    if r.id in IndexOf(rs) then rs[IndexOf(rs)[r.id] := r] else rs + [r]
  }

  function PutAll<C>(rs: seq<Entry<C>>, news: seq<Entry<C>>): seq<Entry<C>> {
    if news == [] then rs else Put(PutAll(rs, news[..|news| - 1]), news[|news| - 1])
  }

  function Kept<C>(rs: seq<Entry<C>>, drop: Entry<C> -> bool): seq<Entry<C>> {
    if rs == [] then []
    else
      var last := rs[|rs| - 1];
      Kept(rs[..|rs| - 1], drop) + if drop(last) then [] else [last]
  }

  function Replaced<C>(rs: seq<Entry<C>>, matches: Entry<C> -> bool, news: seq<Entry<C>>): seq<Entry<C>> {
    PutAll(Kept(rs, matches), news)
  }

  ghost predicate NoDuplicates<C>(rs: seq<Entry<C>>) {
    forall i, j :: 0 <= i < j < |rs| ==> rs[i].id != rs[j].id
  }

  ghost predicate SameIds<C>(rs: seq<Entry<C>>, ss: seq<Entry<C>>) {
    |rs| == |ss| && forall k :: 0 <= k < |rs| ==> rs[k].id == ss[k].id
  }

  /** `ss` starts with the ids of `rs`, in the same order. */
  ghost predicate Extends<C>(rs: seq<Entry<C>>, ss: seq<Entry<C>>) {
    |rs| <= |ss| && forall k :: 0 <= k < |rs| ==> rs[k].id == ss[k].id
  }

  lemma {:induction false} IndexIsLast<C>(rs: seq<Entry<C>>, id: string)
    ensures id in IndexOf(rs) <==> exists k :: 0 <= k < |rs| && rs[k].id == id
    ensures id in IndexOf(rs) ==>
              rs[IndexOf(rs)[id]].id == id && forall k :: IndexOf(rs)[id] < k < |rs| ==> rs[k].id != id
  {
    if rs != [] {
      var n := |rs| - 1;
      var front := rs[..n];
      IndexIsLast(front, id);
      assert forall k :: 0 <= k < n ==> rs[k] == front[k];
      if rs[n].id == id {
      } else if id in IndexOf(front) {
        assert rs[IndexOf(front)[id]].id == id;
      }
    }
  }

  /** Ids and their positions settle the index. */
  lemma {:induction false} IndexByPosition<C>(rs: seq<Entry<C>>, ss: seq<Entry<C>>)
    requires SameIds(rs, ss)
    ensures IndexOf(rs) == IndexOf(ss)
  {
    if rs != [] {
      IndexByPosition(rs[..|rs| - 1], ss[..|ss| - 1]);
    }
  }

  lemma OverwriteRefinesMap<C>(rs: seq<Entry<C>>, r: Entry<C>)
    requires r.id in IndexOf(rs)
    ensures SameIds(rs, Put(rs, r)) && IndexOf(Put(rs, r)) == IndexOf(rs)
    ensures View(Put(rs, r)) == View(rs)[r.id := r]
  {
    IndexIsLast(rs, r.id);
    var ps := Put(rs, r);
    assert SameIds(rs, ps);
    IndexByPosition(rs, ps);
    hide IndexOf;
    forall id | id in IndexOf(rs)
      ensures ps[IndexOf(rs)[id]] == if id == r.id then r else rs[IndexOf(rs)[id]]
    {
      IndexIsLast(rs, id);
    }
  }

  lemma AppendRefinesMap<C>(rs: seq<Entry<C>>, r: Entry<C>)
    requires r.id !in IndexOf(rs)
    ensures Put(rs, r) == rs + [r] && IndexOf(Put(rs, r)) == IndexOf(rs)[r.id := |rs|]
    ensures View(Put(rs, r)) == View(rs)[r.id := r]
  {
    IndexGrows(rs, r);
    ViewGrows(rs + [r]);
    hide IndexOf, View;
    assert (rs + [r])[..|rs|] == rs;
  }

  lemma IndexGrows<C>(rs: seq<Entry<C>>, r: Entry<C>)
    ensures IndexOf(rs + [r]) == IndexOf(rs)[r.id := |rs|]
  {
    assert (rs + [r])[..|rs|] == rs;
  }

  /** A put keeps every id in its place or adds a new one at the end, and changes what exactly one id shows. */
  lemma PutRefinesMap<C>(rs: seq<Entry<C>>, r: Entry<C>)
    ensures if r.id in View(rs) then SameIds(rs, Put(rs, r)) else Put(rs, r) == rs + [r]
    ensures IndexOf(Put(rs, r)) == if r.id in IndexOf(rs) then IndexOf(rs) else IndexOf(rs)[r.id := |rs|]
    ensures View(Put(rs, r)) == View(rs)[r.id := r]
    ensures NoDuplicates(rs) ==> NoDuplicates(Put(rs, r))
  {
    hide IndexOf, NoDuplicates;
    PutKeepsUnique(rs, r);
    if r.id in IndexOf(rs) {
      OverwriteRefinesMap(rs, r);
    } else {
      AppendRefinesMap(rs, r);
    }
  }

  lemma PutKeepsUnique<C>(rs: seq<Entry<C>>, r: Entry<C>)
    ensures NoDuplicates(rs) ==> NoDuplicates(Put(rs, r))
  {
    hide IndexOf;
    IndexIsLast(rs, r.id);
  }

  lemma ViewOfNothing<C>()
    ensures View<C>([]) == map[]
  {}

  lemma ViewGrows<C>(rs: seq<Entry<C>>)
    requires rs != []
    ensures View(rs) == View(rs[..|rs| - 1])[rs[|rs| - 1].id := rs[|rs| - 1]]
  {}

  lemma ExtendsItself<C>(rs: seq<Entry<C>>)
    ensures Extends(rs, rs)
  {}

  lemma PutExtends<C>(rs: seq<Entry<C>>, ss: seq<Entry<C>>, r: Entry<C>)
    requires Extends(rs, ss)
    ensures Extends(rs, Put(ss, r))
  {
    PutRefinesMap(ss, r);
    hide View, IndexOf, Put, NoDuplicates;
  }

  /** A batch leaves the order of what was there, and shows the batch over it, the last of a repeated id winning. */
  lemma {:induction false} PutAllRefinesMap<C>(rs: seq<Entry<C>>, news: seq<Entry<C>>)
    ensures Extends(rs, PutAll(rs, news))
    ensures View(PutAll(rs, news)) == View(rs) + View(news)
    ensures NoDuplicates(rs) ==> NoDuplicates(PutAll(rs, news))
  {
    hide View, Put, NoDuplicates, Extends;
    if news == [] {
      ViewOfNothing<C>();
      ExtendsItself(rs);
    } else {
      var front, last := PutAll(rs, news[..|news| - 1]), news[|news| - 1];
      PutAllRefinesMap(rs, news[..|news| - 1]);
      PutRefinesMap(front, last);
      PutExtends(rs, front, last);
      ViewGrows(news);
    }
  }

  lemma {:induction false} KeptContents<C>(rs: seq<Entry<C>>, drop: Entry<C> -> bool)
    ensures forall r :: r in Kept(rs, drop) ==> r in rs && !drop(r)
    ensures forall r :: r in rs && !drop(r) ==> r in Kept(rs, drop)
  {
    if rs != [] {
      KeptContents(rs[..|rs| - 1], drop);
      assert rs == rs[..|rs| - 1] + [rs[|rs| - 1]];
    }
  }

  /** Dropping keeps the order: it can be done piece by piece, and record by record. */
  lemma {:induction false} KeptPieces<C>(a: seq<Entry<C>>, b: seq<Entry<C>>, drop: Entry<C> -> bool)
    ensures Kept(a + b, drop) == Kept(a, drop) + Kept(b, drop)
    ensures |b| == 1 ==> Kept(b, drop) == if drop(b[0]) then [] else b
  {
    if b == [] {
      assert a + b == a;
    } else {
      assert (a + b)[..|a + b| - 1] == a + b[..|b| - 1];
      KeptPieces(a, b[..|b| - 1], drop);
      assert |b| == 1 ==> b == [b[0]];
    }
  }

  lemma LastIsNew<C>(rs: seq<Entry<C>>)
    requires NoDuplicates(rs) && rs != []
    ensures NoDuplicates(rs[..|rs| - 1])
    ensures forall r :: r in rs[..|rs| - 1] ==> r.id != rs[|rs| - 1].id
  {}

  lemma NewAtTheEnd<C>(rs: seq<Entry<C>>, last: Entry<C>)
    requires NoDuplicates(rs) && forall r :: r in rs ==> r.id != last.id
    ensures NoDuplicates(rs + [last])
  {}

  lemma {:induction false} KeptNoDuplicates<C>(rs: seq<Entry<C>>, drop: Entry<C> -> bool)
    requires NoDuplicates(rs)
    ensures NoDuplicates(Kept(rs, drop))
  {
    if rs != [] {
      var front, last := rs[..|rs| - 1], rs[|rs| - 1];
      LastIsNew(rs);
      KeptNoDuplicates(front, drop);
      KeptContents(front, drop);
      hide NoDuplicates;
      NewAtTheEnd(Kept(front, drop), last);
    }
  }

  /** Without duplicates, the view is the list. */
  lemma UniqueView<C>(rs: seq<Entry<C>>, r: Entry<C>)
    requires NoDuplicates(rs)
    ensures r in rs <==> r.id in View(rs) && View(rs)[r.id] == r
  {
    IndexIsLast(rs, r.id);
    hide IndexOf;
  }

  lemma ViewIds<C>(rs: seq<Entry<C>>)
    ensures forall id :: id in View(rs) ==> View(rs)[id].id == id
  {
    forall id | id in View(rs)
      ensures View(rs)[id].id == id
    {
      IndexIsLast(rs, id);
    }
  }

  lemma KeptShows<C>(rs: seq<Entry<C>>, drop: Entry<C> -> bool, id: string)
    requires NoDuplicates(rs)
    ensures id in View(Kept(rs, drop)) <==> id in View(rs) && !drop(View(rs)[id])
    ensures id in View(Kept(rs, drop)) ==> View(Kept(rs, drop))[id] == View(rs)[id]
  {
    var kept := Kept(rs, drop);
    hide View, Kept, NoDuplicates;
    KeptContents(rs, drop);
    KeptNoDuplicates(rs, drop);
    ViewIds(rs);
    ViewIds(kept);
    if id in View(kept) {
      UniqueView(kept, View(kept)[id]);
      UniqueView(rs, View(kept)[id]);
    }
    if id in View(rs) {
      UniqueView(rs, View(rs)[id]);
      UniqueView(kept, View(rs)[id]);
    }
  }

  /** What is left after dropping shows the old map without the dropped records. */
  lemma KeptView<C>(rs: seq<Entry<C>>, drop: Entry<C> -> bool)
    requires NoDuplicates(rs)
    ensures View(Kept(rs, drop)) == map id | id in View(rs) && !drop(View(rs)[id]) :: View(rs)[id]
  {
    hide View, Kept, NoDuplicates;
    forall id {
      KeptShows(rs, drop, id);
    }
  }

  /** Replacing is: the old map without the matching records, overridden by the new ones; a list
      without duplicates stays without duplicates, even when the batch repeats ids. */
  lemma ReplacedRefinesMap<C>(rs: seq<Entry<C>>, matches: Entry<C> -> bool, news: seq<Entry<C>>)
    requires NoDuplicates(rs)
    ensures NoDuplicates(Replaced(rs, matches, news))
    ensures View(Replaced(rs, matches, news))
         == (map id | id in View(rs) && !matches(View(rs)[id]) :: View(rs)[id]) + View(news)
    ensures Extends(Kept(rs, matches), Replaced(rs, matches, news))
  {
    KeptView(rs, matches);
    KeptNoDuplicates(rs, matches);
    PutAllRefinesMap(Kept(rs, matches), news);
    hide View, Kept, PutAll, NoDuplicates;
  }
}
