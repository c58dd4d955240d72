/** The product records of the product-management screen and the pure list
    transformations its handlers apply to them: the fresh-id rule, append on
    add, replace-in-place on update and filter on delete. */
module Products {

  datatype Option<T> = None | Some(value: T)

  /** Availability of a product, persisted as "available" / "unavailable". */
  datatype Status = Available | Unavailable

  /** One product record. The price is a whole number: nothing is computed
      from it except the form's lower-bound check. */
  datatype Product = Product(id: int, name: string, price: int, status: Status)

  /** What the form passes to its submit handler. A field the user left
      empty is None; `status` is the position of the availability switch. */
  datatype FormValues = FormValues(name: Option<string>, price: Option<int>, status: Option<bool>)

  /** The form's values after it is created or reset: no name, no price,
      and the availability switch on (its initial value is true). */
  const InitialValues := FormValues(None, None, Some(true))

  /** The form's validation rules: the name is required (non-empty) and the
      price is required and at least 1. */
  predicate Valid(v: FormValues): (ok: bool)
    ensures ok ==> v.name.Some? && v.name.value != "" && v.price.Some? && v.price.value > 0
  {
    v.name.Some? && |v.name.value| > 0 && v.price.Some? && v.price.value >= 1
  }

  /** No two records of the list share an id. */
  predicate UniqueIds(ps: seq<Product>)
  {
    forall i, j :: 0 <= i < j < |ps| ==> ps[i].id != ps[j].id
  }

  /** The status a submitted switch position stands for: a switch that is on
      means available; off or absent means unavailable. */
  function StatusOf(toggle: Option<bool>): (s: Status)
    ensures s == Available <==> toggle == Some(true)
    ensures s == Unavailable <==> (toggle == None || toggle == Some(false))
  {
    match toggle
    case Some(true) => Available
    case _ => Unavailable
  }

  /** The switch starts switched on, so a form submitted without touching
      it gives an available product. */
  lemma DefaultStatusAvailable()
    ensures InitialValues.status.Some?
    ensures StatusOf(InitialValues.status) == Available
  {
  }

  /** A form just created or reset cannot be submitted: its name and price
      are missing. */
  lemma ResetFormRejected()
    ensures !Valid(InitialValues)
  {
  }

  /** The values the form is pre-filled with when a record is picked for
      editing; its switch position is read back as the record's own status. */
  function Prefill(p: Product): (v: FormValues)
    ensures v.name == Some(p.name) && v.price == Some(p.price)
    ensures StatusOf(v.status) == p.status
    ensures Valid(v) <==> |p.name| > 0 && p.price >= 1
  {
    FormValues(Some(p.name), Some(p.price), Some(p.status == Available))
  }

  /** The largest id in the list, or 0 when that is larger (in particular
      for the empty list). */
  function MaxId(ps: seq<Product>): (m: int)
    ensures m >= 0
    ensures forall i :: 0 <= i < |ps| ==> ps[i].id <= m
    ensures m == 0 || exists i :: 0 <= i < |ps| && ps[i].id == m
  {
    if ps == [] then 0
    else
      var m := MaxId(ps[..|ps| - 1]);
      if ps[|ps| - 1].id > m then ps[|ps| - 1].id else m
  }

  /** The id an added record receives: one more than the largest id present
      (ids not above 0 count as 0). It exceeds every id in the list, and it
      is the least such id of at least 1: either it is 1 or its predecessor
      is an id in the list. */
  function NextId(ps: seq<Product>): (id: int)
    ensures id >= 1
    ensures forall i :: 0 <= i < |ps| ==> ps[i].id < id
    ensures id == 1 || exists i :: 0 <= i < |ps| && ps[i].id == id - 1
  {
    MaxId(ps) + 1
  }

  /** Adding a product appends one new record after the existing ones. */
  function Add(ps: seq<Product>, v: FormValues): (r: seq<Product>)
    requires Valid(v)
    ensures |r| == |ps| + 1
    ensures r[..|ps|] == ps
    ensures r[|ps|].id == NextId(ps)
    ensures r[|ps|].name == v.name.value && r[|ps|].price == v.price.value
    ensures r[|ps|].status == StatusOf(v.status)
  {
    ps + [Product(NextId(ps), v.name.value, v.price.value, StatusOf(v.status))]
  }

  /** The record an update writes: the editing target with the submitted
      name, price and status over it, so it keeps the target's id. */
  function Revise(target: Product, v: FormValues): (p: Product)
    requires Valid(v)
    ensures p.id == target.id
    ensures p.name == v.name.value && p.price == v.price.value
    ensures p.status == StatusOf(v.status)
  {
    target.(name := v.name.value, price := v.price.value, status := StatusOf(v.status))
  }

  /** Updating rewrites, in place, every record that carries the editing
      target's id; every other record stays as it was. */
  function Update(ps: seq<Product>, target: Product, v: FormValues): (r: seq<Product>)
    requires Valid(v)
    ensures |r| == |ps|
    ensures forall i :: 0 <= i < |ps| && ps[i].id != target.id ==> r[i] == ps[i]
    ensures forall i :: 0 <= i < |ps| && ps[i].id == target.id ==> r[i] == Revise(target, v)
  {
    if ps == [] then []
    else
      var last := ps[|ps| - 1];
      Update(ps[..|ps| - 1], target, v) + [if last.id == target.id then Revise(target, v) else last]
  }

  /** Deleting by id drops every record carrying that id: a record is in
      the result exactly when it was in the list and has another id. */
  function Delete(ps: seq<Product>, id: int): (r: seq<Product>)
    ensures forall p :: p in r <==> p in ps && p.id != id
  {
    if ps == [] then []
    else
      var last := ps[|ps| - 1];
      assert ps == ps[..|ps| - 1] + [last];
      Delete(ps[..|ps| - 1], id) + (if last.id == id then [] else [last])
  }

  /** A delete keeps each record with another id as often as it occurred,
      and no copy of a record with the deleted id. */
  lemma {:induction false} DeleteCounts(ps: seq<Product>, id: int, p: Product)
    ensures multiset(Delete(ps, id))[p] == if p.id == id then 0 else multiset(ps)[p]
  {
    if ps != [] {
      var init, last := ps[..|ps| - 1], ps[|ps| - 1];
      assert ps == init + [last];
      assert Delete(ps, id) == Delete(init, id) + (if last.id == id then [] else [last]);
      DeleteCounts(init, id, p);
    }
  }

  /** The positions of the records a delete by `id` keeps, in increasing
      order: every position whose record has another id, and no other. */
  function KeptIndices(ps: seq<Product>, id: int): (ks: seq<nat>)
    ensures forall k :: 0 <= k < |ks| ==> ks[k] < |ps| && ps[ks[k]].id != id
    ensures forall k, l :: 0 <= k < l < |ks| ==> ks[k] < ks[l]
    ensures forall i :: 0 <= i < |ps| && ps[i].id != id ==> i in ks
  {
    if ps == [] then []
    else
      var ks := KeptIndices(ps[..|ps| - 1], id);
      if ps[|ps| - 1].id == id then ks else ks + [|ps| - 1]
  }

  /** A delete yields exactly the records at the kept positions, in order. */
  lemma {:induction false} DeleteIsSubsequence(ps: seq<Product>, id: int)
    ensures |Delete(ps, id)| == |KeptIndices(ps, id)|
    ensures forall k :: 0 <= k < |Delete(ps, id)| ==> Delete(ps, id)[k] == ps[KeptIndices(ps, id)[k]]
  {
    if ps != [] {
      var init := ps[..|ps| - 1];
      assert Delete(ps, id) == Delete(init, id) + (if ps[|ps| - 1].id == id then [] else [ps[|ps| - 1]]);
      DeleteIsSubsequence(init, id);
      assert forall k :: 0 <= k < |KeptIndices(init, id)| ==> init[KeptIndices(init, id)[k]] == ps[KeptIndices(init, id)[k]];
    }
  }

  /** Deleting an id that no record carries leaves the list as it was, and
      only then. */
  lemma {:induction false} DeleteAbsent(ps: seq<Product>, id: int)
    ensures Delete(ps, id) == ps <==> forall i :: 0 <= i < |ps| ==> ps[i].id != id
  {
    if ps != [] {
      var init := ps[..|ps| - 1];
      assert Delete(ps, id) == Delete(init, id) + (if ps[|ps| - 1].id == id then [] else [ps[|ps| - 1]]);
      DeleteAbsent(init, id);
      if forall i :: 0 <= i < |ps| ==> ps[i].id != id {
        assert forall i :: 0 <= i < |init| ==> init[i].id != id by {
          forall i | 0 <= i < |init| ensures init[i].id != id {
            assert init[i] == ps[i];
          }
        }
        assert ps == init + [ps[|ps| - 1]];
      } else {
        var i :| 0 <= i < |ps| && ps[i].id == id;
        assert ps[i] in ps && ps[i] !in Delete(ps, id);
      }
    }
  }

  /** Deleting the same id twice is the same as deleting it once. */
  lemma DeleteIdempotent(ps: seq<Product>, id: int)
    ensures Delete(Delete(ps, id), id) == Delete(ps, id)
  {
    var r := Delete(ps, id);
    assert forall i :: 0 <= i < |r| ==> r[i].id != id by {
      forall i | 0 <= i < |r| ensures r[i].id != id {
        assert r[i] in r;
      }
    }
    DeleteAbsent(r, id);
  }

  /** Deleting distributes over concatenation: the records of each part are
      filtered where they stand, so the relative order of the list is kept. */
  lemma {:induction false} DeleteAppend(a: seq<Product>, b: seq<Product>, id: int)
    ensures Delete(a + b, id) == Delete(a, id) + Delete(b, id)
  {
    if b == [] {
      assert a + b == a;
    } else {
      var init, last := b[..|b| - 1], b[|b| - 1];
      assert (a + b)[..|a + b| - 1] == a + init;
      assert Delete(a + b, id) == Delete(a + init, id) + (if last.id == id then [] else [last]);
      assert Delete(b, id) == Delete(init, id) + (if last.id == id then [] else [last]);
      DeleteAppend(a, init, id);
    }
  }

  /** Appending a record keeps ids unique exactly when its id is new. */
  lemma UniqueIdsSnoc(ps: seq<Product>, p: Product)
    ensures UniqueIds(ps + [p]) <==> UniqueIds(ps) && forall i :: 0 <= i < |ps| ==> ps[i].id != p.id
  {
    var s := ps + [p];
    if UniqueIds(s) {
      forall i, j | 0 <= i < j < |ps| ensures ps[i].id != ps[j].id {
        assert s[i] == ps[i] && s[j] == ps[j];
      }
      forall i | 0 <= i < |ps| ensures ps[i].id != p.id {
        assert s[i] == ps[i] && s[|ps|] == p;
      }
    }
  }

  /** Adding keeps ids pairwise distinct, because the new id is fresh. */
  lemma AddPreservesUniqueIds(ps: seq<Product>, v: FormValues)
    requires Valid(v)
    requires UniqueIds(ps)
    ensures UniqueIds(Add(ps, v))
  {
    UniqueIdsSnoc(ps, Add(ps, v)[|ps|]);
    assert Add(ps, v) == ps + [Add(ps, v)[|ps|]];
  }

  /** Updating keeps every position's id, so distinct ids stay distinct. */
  lemma UpdatePreservesUniqueIds(ps: seq<Product>, target: Product, v: FormValues)
    requires Valid(v)
    requires UniqueIds(ps)
    ensures UniqueIds(Update(ps, target, v))
  {
    var r := Update(ps, target, v);
    assert forall i :: 0 <= i < |ps| ==> r[i].id == ps[i].id;
  }

  /** Deleting keeps ids pairwise distinct. */
  lemma {:induction false} DeletePreservesUniqueIds(ps: seq<Product>, id: int)
    requires UniqueIds(ps)
    ensures UniqueIds(Delete(ps, id))
  {
    if ps != [] {
      var init, last := ps[..|ps| - 1], ps[|ps| - 1];
      assert ps == init + [last];
      UniqueIdsSnoc(init, last);
      DeletePreservesUniqueIds(init, id);
      var d := Delete(init, id);
      if last.id != id {
        forall i | 0 <= i < |d| ensures d[i].id != last.id {
          assert d[i] in d;
          var j :| 0 <= j < |init| && init[j] == d[i];
        }
        UniqueIdsSnoc(d, last);
      }
    }
  }

  /** Editing a record and submitting the pre-filled form unchanged gives
      back the same list, when ids are unique and the record passes the
      form's rules. */
  lemma EditRoundTrip(ps: seq<Product>, p: Product)
    requires UniqueIds(ps)
    requires p in ps
    requires Valid(Prefill(p))
    ensures Update(ps, p, Prefill(p)) == ps
  {
    var r := Update(ps, p, Prefill(p));
    var k :| 0 <= k < |ps| && ps[k] == p;
    forall i | 0 <= i < |ps| ensures r[i] == ps[i] {
      if ps[i].id == p.id {
        assert i == k;
      }
    }
  }
}
