/**
 * A mesh instance that shows a piece of text: its text, the material alpha
 * it is drawn with, and its uniform scale.
 *
 * Rebuilding the mesh from the text is done by the text-mesh builder, which
 * is not part of this model; each call to it is recorded, with the text,
 * width and height it was given, in the ghost field `rebuilds`.
 */
module TextMesh {
  import opened Geometry

  /** The colour components of a mesh material. */
  datatype Material = Material(ambient: Color, diffuse: Color, specular: Color, custom: Color)

  /** One call to the text-mesh builder. */
  datatype Rebuild = Rebuild(text: string, width: real, height: real)

  /** What `set_text` reads and writes. */
  datatype TextState = TextState(text: string, width: real, height: real, rebuilds: seq<Rebuild>)

  /**
   * `set_text(t)` on a state: an unchanged text is ignored; a new text is
   * stored and the mesh rebuilt once from it at the current width and height.
   */
  function SetTextStep(s: TextState, t: string): TextState
  {
    if s.text == t then s
    else s.(text := t, rebuilds := s.rebuilds + [Rebuild(t, s.width, s.height)])
  }

  /**
   * After `set_text(t)` the text is `t`; the mesh was rebuilt exactly when
   * the text changed, once, from `t` at the current width and height.
   */
  lemma SetTextEffect(s: TextState, t: string)
    ensures var r := SetTextStep(s, t);
      r.text == t && r.width == s.width && r.height == s.height &&
      (s.text == t ==> r.rebuilds == s.rebuilds) &&
      (s.text != t ==> |r.rebuilds| == |s.rebuilds| + 1 && r.rebuilds[..|s.rebuilds|] == s.rebuilds &&
                       r.rebuilds[|s.rebuilds|] == Rebuild(t, s.width, s.height))
  {
  }

  /** Setting the same text twice has the effect of setting it once, rebuilds included. */
  lemma SetTextIdempotent(s: TextState, t: string)
    ensures SetTextStep(SetTextStep(s, t), t) == SetTextStep(s, t)
  {
  }

  class TextMeshInstance {
    var text: string
    var width: real
    var height: real
    var material: Material
    var scale: Vector3
    ghost var rebuilds: seq<Rebuild>

    ghost function State(): TextState
      reads this
    {
      TextState(text, width, height, rebuilds)
    }

    /**
     * A text mesh of the given box size, with no text and no rebuild yet.
     * The instance's constructor is not part of this model: its parameters,
     * the empty initial text and the unit scale are this model's choice.
     */
    constructor (width: real, height: real, material: Material)
      ensures text == "" && this.width == width && this.height == height
      ensures this.material == material && rebuilds == []
    {
      text := "";
      this.width := width;
      this.height := height;
      this.material := material;
      scale := Vector3(1.0, 1.0, 1.0);
      rebuilds := [];
    }

    /** `set_text(t)`: rebuilds the mesh only when the text differs from the current one. */
    method SetText(t: string)
      modifies this
      ensures State() == SetTextStep(old(State()), t)
      ensures material == old(material) && scale == old(scale)
    {
      if text == t {
        return;
      }
      text := t;
      rebuilds := rebuilds + [Rebuild(t, width, height)];
    }

    /** `get_alpha()`: the alpha of the material's ambient colour. */
    function GetAlpha(): real
      reads this
    {
      material.ambient.a
    }

    /**
     * `set_alpha(alpha)`: afterwards `get_alpha()` returns `alpha`; every
     * other material component, and the rest of the instance, is kept.
     */
    method SetAlpha(alpha: real)
      modifies this
      ensures GetAlpha() == alpha
      ensures material.ambient.r == old(material.ambient.r) && material.ambient.g == old(material.ambient.g)
      ensures material.ambient.b == old(material.ambient.b)
      ensures material.diffuse == old(material.diffuse) && material.specular == old(material.specular)
      ensures material.custom == old(material.custom)
      ensures State() == old(State()) && scale == old(scale)
    {
      var mat := material;
      mat := mat.(ambient := mat.ambient.(a := alpha));
      material := mat;
    }

    /** `set_size(size)`: the same scale on all three axes. */
    method SetSize(size: real)
      modifies this
      ensures scale.x == size && scale.y == size && scale.z == size
      ensures State() == old(State()) && material == old(material)
    {
      scale := Vector3(size, size, size);
    }
  }
}
