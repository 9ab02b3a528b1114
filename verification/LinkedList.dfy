/** The singly linked list of threads/list.cc, with pointers to its first and last elements. */
module LinkedLists {
  import opened Sequences

  datatype Entry<T> = Entry(key: int, item: T)

  ghost predicate Sorted<T>(s: seq<Entry<T>>) {
    forall i, j :: 0 <= i < j < |s| ==> s[i].key <= s[j].key
  }

  /** The first index from `i` on with a bigger key, or the length. */
  function FirstBigger<T>(s: seq<Entry<T>>, key: int, i: nat): (r: nat)
    requires i <= |s|
    ensures i <= r <= |s|
    ensures forall j :: i <= j < r ==> s[j].key <= key
    ensures r < |s| ==> key < s[r].key
    decreases |s| - i
  {
    if i == |s| || key < s[i].key then i else FirstBigger(s, key, i + 1)
  }

  ghost function InsertedAt<T>(s: seq<Entry<T>>, k: nat, e: Entry<T>): (r: seq<Entry<T>>)
    requires k <= |s|
    ensures |r| == |s| + 1
    ensures forall i :: 0 <= i < k ==> r[i] == s[i]
    ensures forall i :: k < i < |r| ==> r[i] == s[i - 1]
    ensures r[k] == e
  {
    s[..k] + [e] + s[k..]
  }

  ghost function Inserted<T>(s: seq<Entry<T>>, e: Entry<T>): seq<Entry<T>> {
    InsertedAt(s, FirstBigger(s, e.key, 0), e)
  }

  lemma InsertedMultiset<T>(s: seq<Entry<T>>, k: nat, e: Entry<T>)
    requires k <= |s|
    ensures multiset(InsertedAt(s, k, e)) == multiset(s) + multiset{e}
  {
    assert s == s[..k] + s[k..];
  }

  lemma SortedAround<T>(s: seq<Entry<T>>, r: seq<Entry<T>>, k: nat, e: Entry<T>)
    requires Sorted(s) && k <= |s| && |r| == |s| + 1
    requires forall i :: 0 <= i < k ==> r[i] == s[i]
    requires forall i :: k < i < |r| ==> r[i] == s[i - 1]
    requires r[k] == e
    requires forall i :: 0 <= i < k ==> s[i].key <= e.key
    requires forall i :: k <= i < |s| ==> e.key <= s[i].key
    ensures Sorted(r)
  {
  }

  lemma BiggerFrom<T>(s: seq<Entry<T>>, key: int, k: nat)
    requires Sorted(s) && k == FirstBigger(s, key, 0)
    ensures forall i :: k <= i < |s| ==> key < s[i].key
  {
  }

  /** Inserting into a sorted list keeps it sorted, adds just that element, and puts it behind all
      elements with the same key. */
  lemma InsertedSorted<T>(s: seq<Entry<T>>, e: Entry<T>)
    requires Sorted(s)
    ensures Sorted(Inserted(s, e))
    ensures multiset(Inserted(s, e)) == multiset(s) + multiset{e}
    ensures Inserted(s, e)[FirstBigger(s, e.key, 0)] == e
    ensures forall i :: 0 <= i < FirstBigger(s, e.key, 0) ==> s[i].key <= e.key
    ensures forall i :: FirstBigger(s, e.key, 0) <= i < |s| ==> e.key < s[i].key
  {
    var k := FirstBigger(s, e.key, 0);
    InsertedMultiset(s, k, e);
    BiggerFrom(s, e.key, k);
    SortedAround(s, Inserted(s, e), k, e);
  }

  class ListElement<T> {
    var next: ListElement?<T>
    const key: int
    const item: T

    constructor (item: T, sortKey: int)
      ensures next == null && this.key == sortKey && this.item == item
    {
      this.item := item;
      key := sortKey;
      next := null;
    }
  }

  ghost function Entries<T>(es: seq<ListElement<T>>): (s: seq<Entry<T>>)
    ensures |s| == |es|
    ensures forall i :: 0 <= i < |es| ==> s[i] == Entry(es[i].key, es[i].item)
  {
    seq(|es|, i requires 0 <= i < |es| => Entry(es[i].key, es[i].item))
  }

  lemma EntriesInserted<T>(es: seq<ListElement<T>>, k: nat, e: ListElement<T>)
    requires k <= |es|
    ensures Entries(es[..k] + [e] + es[k..]) == InsertedAt(Entries(es), k, Entry(e.key, e.item))
  {
  }

  ghost predicate Apart<T>(es: seq<ListElement<T>>) {
    forall i, j :: 0 <= i < j < |es| ==> es[i] != es[j]
  }

  lemma ApartInserted<T>(es: seq<ListElement<T>>, k: nat, e: ListElement<T>)
    requires Apart(es) && e !in es && k <= |es|
    ensures Apart(es[..k] + [e] + es[k..])
  {
  }

  class List<T> {
    var first: ListElement?<T>
    var last: ListElement?<T>
    /** The elements in order. */
    ghost var elements: seq<ListElement<T>>

    ghost function Elements(): set<ListElement<T>>
      reads this
    {
      set e | e in elements
    }

    /** An acyclic chain from `first` to `last`; both are null if there are no elements. */
    ghost predicate Valid()
      reads this, Elements()
    {
      && Apart(elements)
      && (forall i, j :: 0 <= i < |elements| && j == i + 1 && j < |elements| ==> elements[i].next == elements[j])
      && (if elements == [] then first == null && last == null
          else first == elements[0] && last == elements[|elements| - 1] && last.next == null)
    }

    ghost function Contents(): (s: seq<Entry<T>>)
      reads this
      ensures |s| == |elements|
    {
      Entries(elements)
    }

    constructor ()
      ensures Valid() && Contents() == []
    {
      first, last, elements := null, null, [];
    }

    method IsEmpty() returns (empty: bool)
      requires Valid()
      ensures empty <==> Contents() == []
    {
      empty := first == null;
    }

    method Append(item: T)
      requires Valid()
      modifies this, Elements()
      ensures Valid() && fresh(Elements() - old(Elements()))
      ensures Contents() == old(Contents()) + [Entry(0, item)]
    {
      var element := new ListElement(item, 0);
      var empty := IsEmpty();
      if empty {
        first := element;
        last := element;
      } else {
        last.next := element;
        last := element;
      }
      elements := elements + [element];
      assert Contents() == old(Contents()) + [Entry(0, item)];
    }

    method Prepend(item: T)
      requires Valid()
      modifies this, Elements()
      ensures Valid() && fresh(Elements() - old(Elements()))
      ensures Contents() == [Entry(0, item)] + old(Contents())
    {
      var element := new ListElement(item, 0);
      var empty := IsEmpty();
      if empty {
        first := element;
        last := element;
      } else {
        element.next := first;
        first := element;
      }
      elements := [element] + elements;
      assert Contents() == [Entry(0, item)] + old(Contents());
    }

    /** Removes the first element, if there is one. */
    method SortedRemove() returns (r: Option<Entry<T>>)
      requires Valid()
      modifies this
      ensures Valid() && Elements() <= old(Elements())
      ensures r == if old(Contents()) == [] then None else Some(old(Contents())[0])
      ensures Contents() == if old(Contents()) == [] then [] else old(Contents())[1..]
    {
      var element := first;
      var empty := IsEmpty();
      if empty {
        return None;
      }
      var thing := first.item;
      if first == last {
        first := null;
        last := null;
      } else {
        first := element.next;
      }
      elements := elements[1..];
      assert Contents() == old(Contents())[1..];
      return Some(Entry(element.key, thing));
    }

    method Remove() returns (r: Option<T>)
      requires Valid()
      modifies this
      ensures Valid() && Elements() <= old(Elements())
      ensures r == if old(Contents()) == [] then None else Some(old(Contents())[0].item)
      ensures Contents() == if old(Contents()) == [] then [] else old(Contents())[1..]
    {
      var e := SortedRemove();
      r := if e == None then None else Some(e.value.item);
    }

    /** Takes note of a new element behind element `k` of the chain. */
    ghost method Link(k: nat, element: ListElement<T>)
      requires k < |elements| && element !in elements && Apart(elements)
      requires forall i, j :: 0 <= i < |elements| && i != k && j == i + 1 && j < |elements| ==>
                 elements[i].next == elements[j]
      requires elements[k].next == element && first == elements[0]
      requires if k + 1 < |elements|
               then element.next == elements[k + 1] && last == elements[|elements| - 1] && last.next == null
               else element.next == null && last == element
      modifies this`elements
      ensures Valid() && elements == old(elements)[..k + 1] + [element] + old(elements)[k + 1..]
      ensures Contents() == InsertedAt(old(Contents()), k + 1, Entry(element.key, element.item))
    {
      EntriesInserted(elements, k + 1, element);
      ApartInserted(elements, k + 1, element);
      elements := elements[..k + 1] + [element] + elements[k + 1..];
    }

    /** Looks for the last element before the first one that is bigger. */
    method FindPlace(sortKey: int) returns (ptr: ListElement<T>, ghost k: nat)
      requires Valid() && elements != [] && first.key <= sortKey
      ensures k < |elements| && ptr == elements[k]
      ensures FirstBigger(Contents(), sortKey, 0) == k + 1
    {
      ptr, k := first, 0;
      while ptr.next != null && sortKey >= ptr.next.key
        invariant k < |elements| && ptr == elements[k]
        invariant FirstBigger(Contents(), sortKey, 0) == FirstBigger(Contents(), sortKey, k + 1)
        decreases |elements| - k
      {
        assert k + 1 < |elements| && ptr.next == elements[k + 1];
        ptr, k := ptr.next, k + 1;
      }
      assert k + 1 < |elements| ==> ptr.next == elements[k + 1];
    }

    /** Links a new element in behind `ptr`, which is element `k`. */
    method InsertBehind(ptr: ListElement<T>, ghost k: nat, element: ListElement<T>)
      requires Valid() && k < |elements| && ptr == elements[k]
      requires element !in Elements() && element.next == null
      modifies this, ptr, element
      ensures Valid() && elements == old(elements)[..k + 1] + [element] + old(elements)[k + 1..]
      ensures Contents() == InsertedAt(old(Contents()), k + 1, Entry(element.key, element.item))
    {
      assert k + 1 < |elements| ==> ptr.next == elements[k + 1];
      if ptr.next != null {
        element.next := ptr.next;
        ptr.next := element;
      } else {
        last.next := element;
        last := element;
      }
      Link(k, element);
    }

    /** Links a new element in before all others. */
    method InsertFront(element: ListElement<T>)
      requires Valid() && elements != [] && element !in Elements()
      modifies this, element
      ensures Valid() && elements == [element] + old(elements)
      ensures Contents() == InsertedAt(old(Contents()), 0, Entry(element.key, element.item))
    {
      element.next := first;
      first := element;
      EntriesInserted(elements, 0, element);
      assert elements[..0] + [element] + elements[0..] == [element] + elements;
      elements := [element] + elements;
    }

    /** Inserts before the first element with a bigger key. */
    method SortedInsert(item: T, sortKey: int)
      requires Valid()
      modifies this, Elements()
      ensures Valid() && fresh(Elements() - old(Elements()))
      ensures Contents() == Inserted(old(Contents()), Entry(sortKey, item))
    {
      var element := new ListElement(item, sortKey);
      var empty := IsEmpty();
      if empty {
        first := element;
        last := element;
        elements := [element];
      } else if sortKey < first.key {
        InsertFront(element);
      } else {
        var ptr, k := FindPlace(sortKey);
        InsertBehind(ptr, k, element);
      }
    }
  }
}
