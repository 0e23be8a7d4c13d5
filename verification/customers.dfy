/** CustomerManagementSystem: a list of customer records, appended to without
    any uniqueness check, filtered by id, searched and sorted in place. */
module Customers {
  import opened Wrappers
  import opened JavaString
  import opened Sorting

  /** A customer record (its class is not part of this model beyond these three fields). */
  datatype Customer = Customer(id: int, name: string, email: string)

  /** `removeIf(c -> c.getId() == id)`: the records whose id differs, in order. */
  function WithoutId(s: seq<Customer>, id: int): seq<Customer> {
    if s == [] then []
    else (if s[0].id == id then [] else [s[0]]) + WithoutId(s[1..], id)
  }

  /** Exactly the records with that id go: every other record stays as often as before. */
  lemma {:induction false} WithoutIdCounts(s: seq<Customer>, id: int)
    ensures forall c :: multiset(WithoutId(s, id))[c] == if c.id == id then 0 else multiset(s)[c]
  {
    if s != [] {
      WithoutIdCounts(s[1..], id);
      assert s == [s[0]] + s[1..];
    }
  }

  /** Removal keeps relative order: filtering a concatenation filters each part. */
  lemma {:induction false} WithoutIdAppend(a: seq<Customer>, b: seq<Customer>, id: int)
    ensures WithoutId(a + b, id) == WithoutId(a, id) + WithoutId(b, id)
  {
    if a == [] {
      assert a + b == b;
    } else {
      var head := if a[0].id == id then [] else [a[0]];
      var ab := a + b;
      assert ab[0] == a[0] && ab[1..] == a[1..] + b;
      assert WithoutId(ab, id) == head + WithoutId(a[1..] + b, id);
      WithoutIdAppend(a[1..], b, id);
      assert WithoutId(a, id) == head + WithoutId(a[1..], id);
    }
  }

  /** Something is removed exactly when some record carries the id. */
  lemma {:induction false} WithoutIdShrinks(s: seq<Customer>, id: int)
    ensures |WithoutId(s, id)| <= |s|
    ensures |WithoutId(s, id)| < |s| <==> exists i :: 0 <= i < |s| && s[i].id == id
  {
    if s != [] {
      WithoutIdShrinks(s[1..], id);
      if s[0].id != id && exists i :: 0 <= i < |s| && s[i].id == id {
        var i :| 0 <= i < |s| && s[i].id == id;
        assert s[1..][i - 1].id == id;
      }
    }
  }

  /** The first index whose record has the id, or -1 when none has. */
  function IndexOfId(s: seq<Customer>, id: int): (i: int)
    ensures -1 <= i < |s|
    ensures i >= 0 ==> s[i].id == id
    ensures forall j :: 0 <= j < |s| && (i == -1 || j < i) ==> s[j].id != id
  {
    if s == [] then -1
    else if s[0].id == id then 0
    else
      var j := IndexOfId(s[1..], id);
      if j == -1 then -1 else j + 1
  }

  /** After the records with an id are removed, a search for it finds nothing. */
  lemma RemovedIdNotFound(s: seq<Customer>, id: int)
    ensures IndexOfId(WithoutId(s, id), id) == -1
  {
    WithoutIdCounts(s, id);
    var r := WithoutId(s, id);
    forall i | 0 <= i < |r| ensures r[i].id != id {
      assert r[i] in multiset(r);
    }
  }

  /** `Comparator.comparing(Customer::getName)`: natural order of the names. */
  predicate NameLe(a: Customer, b: Customer) {
    StrLe(a.name, b.name)
  }

  /** `Comparator.comparingInt(Customer::getId)`: ascending ids. */
  predicate IdLe(a: Customer, b: Customer) {
    a.id <= b.id
  }

  /** Both comparators are total preorders; they tie exactly on equal names or equal ids. */
  lemma ComparatorsAreTotal()
    ensures TotalPreorder(NameLe) && TotalPreorder(IdLe)
    ensures forall a, b :: NameLe(a, b) && NameLe(b, a) <==> a.name == b.name
  {
    forall a, b ensures NameLe(a, b) || NameLe(b, a) {
      StrLeTotal(a.name, b.name);
    }
    forall a, b, c | NameLe(a, b) && NameLe(b, c) ensures NameLe(a, c) {
      StrLeTransitive(a.name, b.name, c.name);
    }
    forall a, b ensures NameLe(a, b) && NameLe(b, a) <==> a.name == b.name {
      if NameLe(a, b) && NameLe(b, a) {
        StrLeAntisymmetric(a.name, b.name);
      } else if a.name == b.name {
        StrLeTotal(a.name, a.name);
      }
    }
  }

  class CustomerManagementSystem {
    var customers: seq<Customer>

    /** A new system holds no customers. */
    constructor ()
      ensures customers == []
    {
      customers := [];
    }

    /** Appends one record, even when its id is already in use. */
    method AddCustomer(id: int, name: string, email: string)
      modifies this
      ensures customers == old(customers) + [Customer(id, name, email)]
    {
      customers := customers + [Customer(id, name, email)];
    }

    /** Removes every record with the id; tells whether any was removed. */
    method RemoveCustomer(id: int) returns (removed: bool)
      modifies this
      ensures customers == WithoutId(old(customers), id)
      ensures forall i :: 0 <= i < |customers| ==> customers[i].id != id
      ensures removed <==> exists i :: 0 <= i < |old(customers)| && old(customers)[i].id == id
    {
      WithoutIdShrinks(customers, id);
      RemovedIdNotFound(customers, id);
      var kept := WithoutId(customers, id);
      removed := |kept| < |customers|;
      customers := kept;
    }

    /** The first record in list order with the id, or `None` (Java's null). */
    method SearchCustomer(id: int) returns (r: Option<Customer>)
      ensures r.None? <==> forall i :: 0 <= i < |customers| ==> customers[i].id != id
      ensures r.Some? ==> r.value.id == id
      ensures r.Some? ==> r.value == customers[IndexOfId(customers, id)]
    {
      for i := 0 to |customers|
        invariant forall j :: 0 <= j < i ==> customers[j].id != id
      {
        if customers[i].id == id {
          return Some(customers[i]);
        }
      }
      return None;
    }

    /** Stable sort by name. */
    method SortCustomersByName()
      modifies this
      ensures customers == SortBy(old(customers), NameLe)
      ensures SortedBy(customers, NameLe)
      ensures multiset(customers) == multiset(old(customers))
      ensures forall c :: Ties(customers, c, NameLe) == Ties(old(customers), c, NameLe)
    {
      ComparatorsAreTotal();
      SortBySorted(customers, NameLe);
      SortByPermutes(customers, NameLe);
      forall c ensures Ties(SortBy(customers, NameLe), c, NameLe) == Ties(customers, c, NameLe) {
        SortByStable(customers, c, NameLe);
      }
      customers := SortBy(customers, NameLe);
    }

    /** Stable sort by id. */
    method SortCustomersById()
      modifies this
      ensures customers == SortBy(old(customers), IdLe)
      ensures SortedBy(customers, IdLe)
      ensures multiset(customers) == multiset(old(customers))
      ensures forall c :: Ties(customers, c, IdLe) == Ties(old(customers), c, IdLe)
    {
      ComparatorsAreTotal();
      SortBySorted(customers, IdLe);
      SortByPermutes(customers, IdLe);
      forall c ensures Ties(SortBy(customers, IdLe), c, IdLe) == Ties(customers, c, IdLe) {
        SortByStable(customers, c, IdLe);
      }
      customers := SortBy(customers, IdLe);
    }
  }
}
