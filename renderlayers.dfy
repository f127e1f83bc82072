/**
 * The layer list of the 2D renderer: layers kept in order of non-decreasing
 * priority, created, looked up, destroyed and dispatched to by string id.
 *
 * A layer's id and priority never change once it is created, so they are
 * constant fields; the list itself is a sequence the renderer reassigns as
 * the source inserts into, erases from and clears its container.
 */
module RenderLayers {

  /** A sprite handed to a layer; only its identity matters here. */
  class Sprite {
    constructor ()
    {
    }
  }

  /**
   * A render layer. What a layer draws is abstracted to the set of sprites
   * it holds.
   */
  class RenderLayer2 {
    const id: string
    const priority: real
    const parallax: real
    var sprites: set<Sprite>

    constructor (id: string, priority: real, parallax: real)
      ensures this.id == id && this.priority == priority && this.parallax == parallax
      ensures sprites == {}
    {
      this.id := id;
      this.priority := priority;
      this.parallax := parallax;
      sprites := {};
    }

    method Add(sprite: Sprite)
      modifies this
      ensures sprites == old(sprites) + {sprite}
    {
      sprites := sprites + {sprite};
    }

    method Remove(sprite: Sprite)
      modifies this
      ensures sprites == old(sprites) - {sprite}
    {
      sprites := sprites - {sprite};
    }
  }

  // ---------------------------------------------------------------------------
  // Specification of the list operations

  /** Layers are drawn in order of non-decreasing priority. */
  ghost predicate SortedByPriority(ls: seq<RenderLayer2>)
  {
    forall i, j :: 0 <= i < j < |ls| ==> ls[i].priority <= ls[j].priority
  }

  /** Every layer object appears in the list at most once. */
  ghost predicate Distinct(ls: seq<RenderLayer2>)
  {
    forall i, j :: 0 <= i < j < |ls| ==> ls[i] != ls[j]
  }

  /**
   * Where a layer of priority `p` goes: in front of the first layer whose
   * priority is strictly greater, or at the end when there is none.
   */
  function InsertionPoint(ls: seq<RenderLayer2>, p: real): (k: nat)
    ensures k <= |ls|
    ensures forall i :: 0 <= i < k ==> ls[i].priority <= p
    ensures k < |ls| ==> ls[k].priority > p
  {
    if ls == [] then 0
    else if ls[0].priority > p then 0
    else 1 + InsertionPoint(ls[1..], p)
  }

  /** The list after `create_layer` has placed `layer`. */
  function InsertByPriority(ls: seq<RenderLayer2>, layer: RenderLayer2): seq<RenderLayer2>
  {
    var k := InsertionPoint(ls, layer.priority);
    ls[..k] + [layer] + ls[k..]
  }

  /** The index of the first layer with this id, or `|ls|` when none has it. */
  function FindLayer(ls: seq<RenderLayer2>, id: string): (k: nat)
    ensures k <= |ls|
    ensures k < |ls| ==> ls[k].id == id
    ensures forall i :: 0 <= i < k ==> ls[i].id != id
  {
    if ls == [] then 0
    else if ls[0].id == id then 0
    else 1 + FindLayer(ls[1..], id)
  }

  /** The list after `destroy_layer(id)`: the first layer with that id erased, if any. */
  function RemoveFirst(ls: seq<RenderLayer2>, id: string): seq<RenderLayer2>
  {
    var k := FindLayer(ls, id);
    if k < |ls| then ls[..k] + ls[k + 1..] else ls
  }

  // ---------------------------------------------------------------------------
  // Properties of the specification

  /**
   * Inserting by priority: the list grows by one, the new layer sits at the
   * insertion point, and taking it out again gives back the old list in its
   * old order.
   */
  lemma InsertByPriorityShape(ls: seq<RenderLayer2>, layer: RenderLayer2)
    ensures var r := InsertByPriority(ls, layer); var k := InsertionPoint(ls, layer.priority);
      |r| == |ls| + 1 && r[k] == layer && r[..k] + r[k + 1..] == ls
  {
    var r := InsertByPriority(ls, layer);
    var k := InsertionPoint(ls, layer.priority);
    assert r[..k] == ls[..k];
    assert r[k + 1..] == ls[k..];
  }

  /**
   * Insertion is stable: every layer in front of the new one has priority at
   * most its own, so it lands after all layers of equal priority; in a sorted
   * list every layer behind it has strictly greater priority.
   */
  lemma {:induction false} InsertByPriorityStable(ls: seq<RenderLayer2>, layer: RenderLayer2)
    requires SortedByPriority(ls)
    ensures var r := InsertByPriority(ls, layer); var k := InsertionPoint(ls, layer.priority);
      (forall i :: 0 <= i < k ==> r[i].priority <= layer.priority) &&
      (forall i :: k < i < |r| ==> r[i].priority > layer.priority)
  {
    var r := InsertByPriority(ls, layer);
    var k := InsertionPoint(ls, layer.priority);
    assert |r| == |ls| + 1;
    forall i | k < i < |r|
      ensures r[i].priority > layer.priority
    {
      assert r[i] == ls[i - 1];
      assert ls[k].priority <= ls[i - 1].priority;
    }
  }

  /** If no layer has a greater priority, the new layer is appended. */
  lemma InsertByPriorityAppends(ls: seq<RenderLayer2>, layer: RenderLayer2)
    requires forall i :: 0 <= i < |ls| ==> ls[i].priority <= layer.priority
    ensures InsertByPriority(ls, layer) == ls + [layer]
  {
    assert InsertionPoint(ls, layer.priority) == |ls|;
  }

  /** Inserting by priority keeps a sorted list sorted. */
  lemma {:induction false} InsertByPriorityKeepsSorted(ls: seq<RenderLayer2>, layer: RenderLayer2)
    requires SortedByPriority(ls)
    ensures SortedByPriority(InsertByPriority(ls, layer))
  {
    var r := InsertByPriority(ls, layer);
    var k := InsertionPoint(ls, layer.priority);
    InsertByPriorityStable(ls, layer);
    assert |r| == |ls| + 1;
    forall i, j | 0 <= i < j < |r|
      ensures r[i].priority <= r[j].priority
    {
      if j < k {
        assert r[i] == ls[i] && r[j] == ls[j];
      } else if i > k {
        assert r[i] == ls[i - 1] && r[j] == ls[j - 1];
      } else if i < k && j > k {
        assert r[i] == ls[i] && r[j] == ls[j - 1];
      }
    }
  }

  /** Inserting a layer that is not yet in a list of distinct layers keeps them distinct. */
  lemma InsertByPriorityDistinct(ls: seq<RenderLayer2>, layer: RenderLayer2)
    requires Distinct(ls) && layer !in ls
    ensures Distinct(InsertByPriority(ls, layer))
  {
    var r := InsertByPriority(ls, layer);
    var k := InsertionPoint(ls, layer.priority);
    assert |r| == |ls| + 1;
    forall i, j | 0 <= i < j < |r|
      ensures r[i] != r[j]
    {
      if i != k && j != k {
        assert r[i] == ls[if i < k then i else i - 1];
        assert r[j] == ls[if j < k then j else j - 1];
      } else if i == k {
        assert r[j] == ls[j - 1];
      } else {
        assert r[i] == ls[i];
      }
    }
  }

  /** Erasing drops exactly the first layer with the id and keeps the others in their order. */
  lemma RemoveFirstShape(ls: seq<RenderLayer2>, id: string)
    ensures var k := FindLayer(ls, id); var r := RemoveFirst(ls, id);
      (k < |ls| ==> |r| == |ls| - 1 && ls == r[..k] + [ls[k]] + r[k..]) &&
      (k == |ls| ==> r == ls)
  {
    var k := FindLayer(ls, id);
    if k < |ls| {
      DropAt(ls, k);
    }
  }

  /** Dropping the element at k leaves a list that, with it put back at k, is the original. */
  lemma DropAt<T>(s: seq<T>, k: nat)
    requires k < |s|
    ensures var r := s[..k] + s[k + 1..]; |r| == |s| - 1 && s == r[..k] + [s[k]] + r[k..]
  {
    var r := s[..k] + s[k + 1..];
    assert r[..k] == s[..k] && r[k..] == s[k + 1..];
    assert s == s[..k] + [s[k]] + s[k + 1..];
  }

  /** Erasing a layer keeps a sorted list sorted. */
  lemma RemoveFirstKeepsSorted(ls: seq<RenderLayer2>, id: string)
    requires SortedByPriority(ls)
    ensures SortedByPriority(RemoveFirst(ls, id))
  {
    var k := FindLayer(ls, id);
    var r := RemoveFirst(ls, id);
    if k < |ls| {
      forall i, j | 0 <= i < j < |r|
        ensures r[i].priority <= r[j].priority
      {
        var i' := if i < k then i else i + 1;
        var j' := if j < k then j else j + 1;
        assert r[i] == ls[i'] && r[j] == ls[j'];
      }
    }
  }

  /** `destroy_layer` with an id no layer has leaves the list as it was. */
  lemma RemoveFirstUnknown(ls: seq<RenderLayer2>, id: string)
    requires forall i :: 0 <= i < |ls| ==> ls[i].id != id
    ensures RemoveFirst(ls, id) == ls
  {
  }

  /** Erasing a layer keeps the remaining layers distinct and drops only that one. */
  lemma RemoveFirstDistinct(ls: seq<RenderLayer2>, id: string)
    requires Distinct(ls)
    ensures Distinct(RemoveFirst(ls, id))
    ensures FindLayer(ls, id) < |ls| ==> ls[FindLayer(ls, id)] !in RemoveFirst(ls, id)
  {
    var k := FindLayer(ls, id);
    var r := RemoveFirst(ls, id);
    if k < |ls| {
      forall i | 0 <= i < |r|
        ensures r[i] != ls[k] && r[i] == ls[if i < k then i else i + 1]
      {
      }
      forall i, j | 0 <= i < j < |r|
        ensures r[i] != r[j]
      {
        assert r[i] == ls[if i < k then i else i + 1] && r[j] == ls[if j < k then j else j + 1];
      }
    }
  }

  // ---------------------------------------------------------------------------
  // The renderer's layer list

  class Renderer2 {
    var layers: seq<RenderLayer2>

    ghost predicate Valid()
      reads this
    {
      SortedByPriority(layers) && Distinct(layers)
    }

    constructor ()
      ensures Valid() && layers == []
    {
      layers := [];
    }

    /**
     * `create_layer(id, priority, parallax)`: scans for the first layer of
     * strictly greater priority and inserts the new layer in front of it,
     * or appends it when there is none; returns the new layer.
     */
    method CreateLayer(id: string, priority: real, parallax: real) returns (res: RenderLayer2)
      requires Valid()
      modifies this
      ensures Valid()
      ensures fresh(res) && res.id == id && res.priority == priority && res.parallax == parallax
      ensures res.sprites == {}
      ensures layers == InsertByPriority(old(layers), res)
    {
      res := new RenderLayer2(id, priority, parallax);
      var inserted := false;
      var i := 0;
      while i < |layers|
        invariant 0 <= i <= |layers|
        invariant !inserted && layers == old(layers)
        invariant forall j :: 0 <= j < i ==> layers[j].priority <= priority
      {
        if layers[i].priority > res.priority {
          layers := layers[..i] + [res] + layers[i..];
          inserted := true;
          break;
        }
        i := i + 1;
      }
      if !inserted {
        layers := layers + [res];
      }
      InsertionPointIs(old(layers), priority, i);
      InsertByPriorityKeepsSorted(old(layers), res);
      InsertByPriorityDistinct(old(layers), res);
    }

    /**
     * `destroy_layer(id)`: finds the first layer with that id and erases it;
     * does nothing when no layer has it.
     */
    method DestroyLayer(id: string)
      requires Valid()
      modifies this
      ensures Valid()
      ensures layers == RemoveFirst(old(layers), id)
    {
      var i := 0;
      while i < |layers| && layers[i].id != id
        invariant 0 <= i <= |layers|
        invariant forall j :: 0 <= j < i ==> layers[j].id != id
      {
        i := i + 1;
      }
      FindLayerIs(layers, id, i);
      RemoveFirstKeepsSorted(layers, id);
      RemoveFirstDistinct(layers, id);
      if i < |layers| {
        layers := layers[..i] + layers[i + 1..];
      }
    }

    /** `destroy_layers()`: removes every layer. */
    method DestroyLayers()
      modifies this
      ensures Valid() && layers == []
    {
      layers := [];
    }

    /**
     * `get_layer(id)`: the first layer whose id matches, or null when none
     * does; the list is not changed.
     */
    method GetLayer(id: string) returns (layer: RenderLayer2?)
      ensures layer == null <==> forall i :: 0 <= i < |layers| ==> layers[i].id != id
      ensures layer != null ==> exists k :: 0 <= k < |layers| && layers[k] == layer && layer.id == id &&
                                 forall i :: 0 <= i < k ==> layers[i].id != id
      ensures layer != null ==> layer == layers[FindLayer(layers, id)]
    {
      var i := 0;
      while i < |layers|
        invariant 0 <= i <= |layers|
        invariant forall j :: 0 <= j < i ==> layers[j].id != id
      {
        if layers[i].id == id {
          FindLayerIs(layers, id, i);
          return layers[i];
        }
        i := i + 1;
      }
      return null;
    }

    /**
     * `add_to_layer(id, sprite)`: hands the sprite to the first layer with
     * that id. With an unknown id no layer changes and a warning is logged;
     * the warning is the returned flag.
     */
    method AddToLayer(id: string, sprite: Sprite) returns (warned: bool)
      requires Valid()
      modifies layers
      ensures warned <==> forall i :: 0 <= i < |layers| ==> layers[i].id != id
      ensures forall i :: 0 <= i < |layers| ==>
        layers[i].sprites == if i == FindLayer(layers, id) then old(layers[i].sprites) + {sprite}
                             else old(layers[i].sprites)
    {
      var layer := GetLayer(id);
      if layer == null {
        warned := true;
      } else {
        warned := false;
        layer.Add(sprite);
      }
    }

    /**
     * `remove_from_layer(id, sprite)`: takes the sprite from the first layer
     * with that id. With an unknown id no layer changes and a warning is
     * logged; the warning is the returned flag.
     */
    method RemoveFromLayer(id: string, sprite: Sprite) returns (warned: bool)
      requires Valid()
      modifies layers
      ensures warned <==> forall i :: 0 <= i < |layers| ==> layers[i].id != id
      ensures forall i :: 0 <= i < |layers| ==>
        layers[i].sprites == if i == FindLayer(layers, id) then old(layers[i].sprites) - {sprite}
                             else old(layers[i].sprites)
    {
      var layer := GetLayer(id);
      if layer == null {
        warned := true;
      } else {
        warned := false;
        layer.Remove(sprite);
      }
    }
  }

  /** A scan that stopped at the first layer of greater priority stopped at the insertion point. */
  lemma {:induction false} InsertionPointIs(ls: seq<RenderLayer2>, p: real, k: nat)
    requires k <= |ls|
    requires forall j :: 0 <= j < k ==> ls[j].priority <= p
    requires k < |ls| ==> ls[k].priority > p
    ensures InsertionPoint(ls, p) == k
    decreases k
  {
    if k > 0 {
      InsertionPointIs(ls[1..], p, k - 1);
    }
  }

  /** A scan that stopped at the first matching id stopped where `FindLayer` does. */
  lemma {:induction false} FindLayerIs(ls: seq<RenderLayer2>, id: string, k: nat)
    requires k <= |ls|
    requires forall j :: 0 <= j < k ==> ls[j].id != id
    requires k < |ls| ==> ls[k].id == id
    ensures FindLayer(ls, id) == k
    decreases k
  {
    if k > 0 {
      FindLayerIs(ls[1..], id, k - 1);
    }
  }
}
