/**
 * A group of mesh instances drawn together at one render stage.
 */
module MeshGroups {

  /** The pass a mesh group is drawn in. */
  datatype RenderStage = Scene | Overlay

  /** `unsigned int` arithmetic is modulo 2^32. */
  const UINT_MODULUS: nat := 0x1_0000_0000

  /** A mesh instance; only its identity matters here. */
  class MeshInstance {
    constructor ()
    {
    }
  }

  class MeshGroup {
    var instances: seq<MeshInstance>
    var stage: RenderStage
    var visible: bool

    /** A new group is drawn in the scene stage and has no instances; `visible` is left unset. */
    constructor ()
      ensures stage == Scene && instances == []
    {
      stage := Scene;
      instances := [];
    }

    /** `size()`: the instance count, truncated to `unsigned int`. */
    function Size(): (n: nat)
      reads this
      ensures n < UINT_MODULUS
      ensures |instances| < UINT_MODULUS ==> n == |instances|
    {
      |instances| % UINT_MODULUS
    }

    /** `get_instance(index)`: the instance at that position; the index is not checked. */
    function GetInstance(index: nat): MeshInstance
      reads this
      requires index < |instances| && index < UINT_MODULUS
    {
      instances[index]
    }

    /**
     * `add_instance()`: appends a new instance and returns it. The instances
     * before it are kept; while the count fits an `unsigned int`, `size()`
     * grows by one and the last index holds the new instance.
     */
    method AddInstance() returns (instance: MeshInstance)
      modifies this
      ensures fresh(instance)
      ensures instances == old(instances) + [instance]
      ensures stage == old(stage) && visible == old(visible)
      ensures |instances| < UINT_MODULUS ==>
        Size() == old(Size()) + 1 && GetInstance(Size() - 1) == instance
    {
      instance := new MeshInstance();
      instances := instances + [instance];
    }
  }
}
