/**
 * Copy-on-write layers of key-value state (AccountStateImpl.java and DelegateStateImpl.java: `track`, `commit`,
 * `rollback` and the lookups). A layer keeps its own updates and reads through to the layer it was made from;
 * the bottom layer works on the database. Values are only ever put, never deleted.
 */
module StateLayers {
  import opened Common

  lemma PutExtendsOverlay<K, V>(base: map<K, V>, over: map<K, V>, k: K, v: V)
    ensures base + over[k := v] == (base + over)[k := v]
  {
  }

  /** Copying one more of the `rest` of the entries. */
  lemma CopyOne<K, V>(base: map<K, V>, entries: map<K, V>, rest: set<K>, k: K)
    requires rest <= entries.Keys && k in rest
    ensures (base + (entries - rest))[k := entries[k]] == base + (entries - (rest - {k}))
  {
  }

  lemma CopyStartsAndEnds<K, V>(base: map<K, V>, entries: map<K, V>)
    ensures base + (entries - entries.Keys) == base
    ensures base + (entries - {}) == base + entries
  {
    assert entries - entries.Keys == map[];
    assert entries - {} == entries;
  }

  class Layer<K(==), V(==)> {
    var updates: map<K, V>
    var db: map<K, V>
    const prev: Layer?<K, V>
    ghost const depth: nat
    ghost const Repr: set<object>

    /** `Repr` is this layer and every layer below it, and the layers are distinct. */
    ghost predicate Valid()
      decreases depth
    {
      this in Repr &&
      if prev == null then Repr == {this}
      else prev.depth < depth && this !in prev.Repr && Repr == {this} + prev.Repr && prev.Valid()
    }

    /** What this layer reads through to. */
    ghost function Below(): map<K, V>
      requires Valid()
      reads this`db, Repr - {this}
      decreases depth, 0
    {
      if prev == null then db else prev.View()
    }

    /** The overlay of all layers down to the database, upper layers winning. */
    ghost function View(): map<K, V>
      requires Valid()
      reads Repr
      decreases depth, 1
    {
      Below() + updates
    }

    constructor (db: map<K, V>)
      ensures Valid() && fresh(Repr) && Repr == {this}
      ensures View() == db && prev == null
    {
      this.db, updates, prev := db, map[], null;
      depth, Repr := 0, {this};
    }

    constructor Over(prev: Layer<K, V>)
      requires prev.Valid()
      ensures Valid() && Repr == {this} + prev.Repr && fresh(this)
      ensures this.prev == prev && View() == prev.View()
    {
      this.prev, updates, db := prev, map[], map[];
      depth, Repr := prev.depth + 1, {this} + prev.Repr;
    }

    method Get(k: K) returns (v: Option<V>)
      requires Valid()
      ensures v == Lookup(View(), k)
      decreases depth
    {
      if k in updates {
        v := Some(updates[k]);
      } else if prev != null {
        v := prev.Get(k);
      } else {
        v := if k in db then Some(db[k]) else None;
      }
    }

    method Put(k: K, v: V)
      requires Valid()
      modifies this`updates
      ensures View() == old(View())[k := v]
      ensures Below() == old(Below())
    {
      updates := updates[k := v];
      PutExtendsOverlay(Below(), old(updates), k, v);
    }

    method Track() returns (child: Layer<K, V>)
      requires Valid()
      ensures child.Valid() && fresh(child) && child.Repr == {child} + Repr
      ensures child.prev == this && child.View() == View()
    {
      child := new Layer.Over(this);
    }

    method PutAll(entries: map<K, V>)
      requires Valid()
      modifies this`updates
      ensures View() == old(View()) + entries
      ensures Below() == old(Below())
    {
      var rest := entries.Keys;
      CopyStartsAndEnds(View(), entries);
      while rest != {}
        invariant rest <= entries.Keys
        invariant View() == old(View()) + (entries - rest) && Below() == old(Below())
        decreases |rest|
      {
        var k :| k in rest;
        CopyOne(old(View()), entries, rest, k);
        Put(k, entries[k]);
        rest := rest - {k};
      }
    }

    /** The bottom layer writes its updates to the database. */
    method Store()
      requires Valid() && prev == null
      modifies this`db
      ensures db == old(View())
    {
      var rest := updates.Keys;
      CopyStartsAndEnds(db, updates);
      while rest != {}
        invariant rest <= updates.Keys
        invariant db == old(db) + (updates - rest)
        decreases |rest|
      {
        var k :| k in rest;
        CopyOne(old(db), updates, rest, k);
        db := db[k := updates[k]];
        rest := rest - {k};
      }
    }

    /** The layer below takes over this layer's view, and so does the database under the bottom layer. */
    method Commit()
      requires Valid()
      modifies this`updates, if prev == null then {} else {prev}`updates
      modifies if prev == null then {this} else {}`db
      ensures View() == old(View()) && Below() == old(View()) && updates == map[]
      ensures prev != null ==> prev.Below() == old(prev.Below())
    {
      if prev == null {
        Store();
      } else {
        prev.PutAll(updates);
      }
      updates := map[];
      assert Below() + updates == Below();
    }

    method Rollback()
      requires Valid()
      modifies this`updates
      ensures View() == Below() == old(Below())
    {
      updates := map[];
      assert Below() + updates == Below();
    }
  }
}
