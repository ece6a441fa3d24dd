/** The value-level parts of a scene object
    (branches/tourney-merge-2013-three/source/render/SceneObject.cpp): the
    packing of a simulation id and a type into a scene id, the string
    converters for the material type and the material flags read from an
    object template, the collection of material flags from the render
    properties, and the collision test. The Irrlicht scene nodes, textures,
    animation and cameras are not part of this model. */
module SceneObjects {
  import opened Wrappers
  import opened Bitstreams
  import IOMappings

  // ---- scene ids ----

  /** SceneObject::BITMASK_SIZE: the number of low bits of a scene id that
      hold the type. */
  const BitmaskSize := 4
  const TypeLimit := 16

  /** ConvertSimIdToSceneId: `(simId << 4) | type` in 32 bits; the four
      high bits of the simulation id are shifted out. */
  function SceneIdOf(simId: U32, kind: U32): (sceneId: U32)
    requires kind < TypeLimit
    ensures sceneId % TypeLimit == kind
    ensures sceneId / TypeLimit == simId % 0x1000_0000
  {
    (simId * TypeLimit) % 0x1_0000_0000 + kind
  }

  /** ConvertSceneIdToSimId: `id >> 4`. */
  function SimIdOf(sceneId: U32): (simId: U32)
    ensures simId < 0x1000_0000
    ensures simId * TypeLimit <= sceneId < (simId + 1) * TypeLimit
  {
    sceneId / TypeLimit
  }

  /** Packing then unpacking gives back every simulation id below 2^28. */
  lemma SceneIdRoundTrip(simId: U32, kind: U32)
    requires kind < TypeLimit && simId < 0x1000_0000
    ensures SimIdOf(SceneIdOf(simId, kind)) == simId
  {
  }

  /** Two different (simulation id, type) pairs below the limits get two
      different scene ids. */
  lemma SceneIdsDistinct(a: U32, ka: U32, b: U32, kb: U32)
    requires ka < TypeLimit && kb < TypeLimit && a < 0x1000_0000 && b < 0x1000_0000
    requires a != b || ka != kb
    ensures SceneIdOf(a, ka) != SceneIdOf(b, kb)
  {
  }

  /** Simulation ids from 2^28 up collide with smaller ones. */
  lemma HighSimIdsAreShiftedOut(simId: U32, kind: U32)
    requires kind < TypeLimit && simId >= 0x1000_0000
    ensures SceneIdOf(simId, kind) == SceneIdOf(simId - 0x1000_0000, kind)
  {
  }

  // ---- strings ----

  /** ::tolower in the C locale. */
  function LowerChar(c: char): (l: char)
    ensures !('A' <= l <= 'Z')
    ensures !('A' <= c <= 'Z') ==> l == c
    ensures 'A' <= c <= 'Z' ==> l as int == c as int + 32
  {
    if 'A' <= c <= 'Z' then (c as int + 32) as char else c
  }

  function Lower(s: string): (l: string)
    ensures |l| == |s| && forall i :: 0 <= i < |s| ==> l[i] == LowerChar(s[i])
  {
    if s == [] then [] else [LowerChar(s[0])] + Lower(s[1..])
  }

  lemma {:induction false} LowerIdempotent(s: string)
    ensures Lower(Lower(s)) == Lower(s)
  {
    if s != [] {
      LowerIdempotent(s[1..]);
      assert Lower(s)[1..] == Lower(s[1..]);
    }
  }

  /** A string that lowers to "true" is one of the 16 spellings of it. */
  lemma LowerTrue(s: string)
    requires Lower(s) == "true"
    ensures |s| == 4
    ensures (s[0] == 't' || s[0] == 'T') && (s[1] == 'r' || s[1] == 'R')
    ensures (s[2] == 'u' || s[2] == 'U') && (s[3] == 'e' || s[3] == 'E')
  {
    var l := Lower(s);
    assert |s| == |l| == 4;
    LowersTo(s[0], l[0], 't', 'T');
    LowersTo(s[1], l[1], 'r', 'R');
    LowersTo(s[2], l[2], 'u', 'U');
    LowersTo(s[3], l[3], 'e', 'E');
  }

  /** A character that lowers to a lower-case letter is that letter or its
      capital. */
  lemma LowersTo(c: char, l: char, lower: char, upper: char)
    requires l == LowerChar(c) && l == lower && 'a' <= lower <= 'z' && upper as int == lower as int - 32
    ensures c == lower || c == upper
  {
  }

  // ---- material types ----

  /** E_MATERIAL_TYPE: the built-in types the converter names, and the type
      number of a loaded shader. */
  datatype MaterialType =
    | Solid | Lightmap | LightmapAdd | LightmapM2 | LightmapM4
    | LightmapLighting | LightmapLightingM2 | LightmapLightingM4
    | DetailMap | SphereMap | Reflection2Layer | TransparentAddColor
    | TransparentAlphaChannel | TransparentAlphaChannelRef | TransparentVertexAlpha
    | TransparentReflection2Layer | NormalMapSolid | ParallaxMapSolid
    | Shader(number: int)

  /** The names the converter recognises, lower-case, with their types. */
  const MaterialTypeNames: map<string, MaterialType> := map[
    "solid" := Solid, "lightmap" := Lightmap, "lightmapadd" := LightmapAdd,
    "lightmap_mod2" := LightmapM2, "lightmap_mod4" := LightmapM4,
    "lighting" := LightmapLighting, "lighting_mod2" := LightmapLightingM2,
    "lighting_mod4" := LightmapLightingM4, "detail" := DetailMap,
    "spheremap" := SphereMap, "reflection2layer" := Reflection2Layer,
    "transparentaddcolor" := TransparentAddColor,
    "transparent_alpha" := TransparentAlphaChannel,
    "transparent_cutoff" := TransparentAlphaChannelRef,
    "transparent_vertex" := TransparentVertexAlpha,
    "transparent_refl_2layer" := TransparentReflection2Layer,
    "normalmap" := NormalMapSolid, "parallaxmap" := ParallaxMapSolid]

  /** IrrMaterialTypeConverter: the lower-cased string picks a built-in
      type from the table (the source tests the names one after another;
      they are distinct, so at most one matches); any other string names a
      shader, whose loading (an Irrlicht call) is the parameter `shader`:
      its number when it loaded, 0 when it did not, in which case the type
      stays EMT_SOLID. */
  function MaterialTypeOf(typeString: string, shader: int): (t: MaterialType)
    ensures t.Shader? ==> t.number == shader && shader != 0
  {
    var low := Lower(typeString);
    if low in MaterialTypeNames then MaterialTypeNames[low]
    else if shader != 0 then Shader(shader)
    else Solid
  }

  /** Known names are matched without regard to case, whatever the shader
      loader would say; an unknown one is the loaded shader or the
      default. */
  lemma MaterialTypeIgnoresCase(a: string, b: string, shader: int)
    requires Lower(a) == Lower(b)
    ensures Lower(a) in MaterialTypeNames ==> MaterialTypeOf(a, shader) == MaterialTypeOf(b, 0)
    ensures Lower(a) !in MaterialTypeNames ==> MaterialTypeOf(a, shader) in {Solid, Shader(shader)}
  {
  }

  // ---- material flags ----

  /** E_MATERIAL_FLAG: the flags the converter names. */
  datatype FlagKind =
    | Wireframe | PointCloud | GouraudShading | Lighting | ZBuffer | ZWriteEnable
    | BackFaceCulling | BilinearFilter | TrilinearFilter | AnisotropicFilter
    | FogEnable | NormalizeNormals | TextureWrap

  /** IrrMaterialFlag: a flag with its value, or the default-constructed
      flag whose flag number is -1. */
  datatype MaterialFlag = NoFlag | Flag(kind: FlagKind, on: bool)

  /** The flag value: "true" or "1" in any case. */
  predicate FlagValue(inVal: string)
  {
    var low := Lower(inVal);
    low == "true" || low == "1"
  }

  /** The flag names the converter recognises, upper-case. */
  const FlagNames: map<string, FlagKind> := map[
    "WIREFRAME" := Wireframe, "POINTCLOUD" := PointCloud,
    "GOURAUD_SHADING" := GouraudShading, "LIGHTING" := Lighting,
    "ZBUFFER" := ZBuffer, "ZWRITE_ENABLE" := ZWriteEnable,
    "BACK_FACE_CULLING" := BackFaceCulling, "BILINEAR_FILTER" := BilinearFilter,
    "TRILINEAR_FILTER" := TrilinearFilter, "ANISOTROPIC_FILTER" := AnisotropicFilter,
    "FOG_ENABLE" := FogEnable, "NORMALIZE_NORMALS" := NormalizeNormals,
    "TEXTURE_WRAP" := TextureWrap]

  /** IrrMaterialFlagConverter: the flag name is upper-cased when the
      converter is built and picks the flag from the table (tested one
      after another in the source); an unknown name gives the default
      flag. */
  function ConvertFlag(flagName: string, inVal: string): (f: MaterialFlag)
    ensures f.Flag? <==> IOMappings.Upper(flagName) in FlagNames
    ensures f.Flag? ==> f.on == FlagValue(inVal) && f.kind == FlagNames[IOMappings.Upper(flagName)]
  {
    var name := IOMappings.Upper(flagName);
    if name in FlagNames then Flag(FlagNames[name], FlagValue(inVal)) else NoFlag
  }

  /** The marker a render property key must contain to be read as a flag. */
  const FlagMarker := "MaterialFlag"

  /** `std::string::find(marker) != npos`. */
  predicate Contains(key: string, marker: string)
  {
    exists i :: 0 <= i <= |key| && marker <= key[i..]
  }

  /** The flags the render properties yield, in property order: a key that
      contains the marker is converted from its text after the first twelve
      characters, and the default flag is dropped. */
  function FlagsOf(props: seq<(string, string)>): (flags: seq<MaterialFlag>)
    ensures |flags| <= |props|
    ensures forall i :: 0 <= i < |flags| ==> flags[i].Flag?
  {
    if props == [] then []
    else
      var (key, value) := props[|props| - 1];
      var rest := FlagsOf(props[..|props| - 1]);
      if Contains(key, FlagMarker) && ConvertFlag(key[|FlagMarker|..], value).Flag? then
        rest + [ConvertFlag(key[|FlagMarker|..], value)]
      else rest
  }

  /** The flag loop of LoadFromTemplate over the render properties. */
  method CollectMaterialFlags(props: seq<(string, string)>) returns (flags: seq<MaterialFlag>)
    ensures flags == FlagsOf(props)
  {
    flags := [];
    for i := 0 to |props|
      invariant flags == FlagsOf(props[..i])
    {
      var (key, value) := props[i];
      assert props[..i + 1][..i] == props[..i];
      if Contains(key, FlagMarker) {
        var flag := ConvertFlag(key[|FlagMarker|..], value);
        if flag != NoFlag {
          flags := flags + [flag];
        }
      }
    }
    assert props[..|props|] == props;
  }

  /** The two spellings used below upper-case to the table key. */
  lemma UpperLighting()
    ensures IOMappings.Upper("Lighting") == "LIGHTING"
    ensures IOMappings.Upper("lighting") == "LIGHTING"
  {
  }

  /** "TRUE" and "1" switch a flag on, "0" switches it off. */
  lemma FlagValues()
    ensures FlagValue("TRUE") && FlagValue("1") && !FlagValue("0")
  {
    assert Lower("TRUE") == "true";
    assert Lower("1") == "1";
    assert Lower("0") == "0";
  }

  /** The lighting flag is found whatever the case of its name. */
  lemma LightingFlag(flagName: string, inVal: string)
    requires IOMappings.Upper(flagName) == "LIGHTING"
    ensures ConvertFlag(flagName, inVal) == Flag(Lighting, FlagValue(inVal))
  {
    assert "LIGHTING" in FlagNames && FlagNames["LIGHTING"] == Lighting;
  }

  /** A name the converter does not know gives the default flag. */
  lemma UnknownFlag(inVal: string)
    ensures ConvertFlag("Shiny", inVal) == NoFlag
  {
    assert IOMappings.Upper("Shiny") == "SHINY";
  }

  /** A property whose key holds the marker yields its flag. */
  lemma LightingFlagProperty(value: string)
    ensures FlagsOf([("MaterialFlagLighting", value)]) == [Flag(Lighting, FlagValue(value))]
  {
    var key := "MaterialFlagLighting";
    assert FlagMarker <= key[0..];
    assert key[12..] == "Lighting";
    UpperLighting();
    LightingFlag("Lighting", value);
  }

  // ---- collision ----

  /** canCollide: the object has a template and the template's collision
      mask is not zero. The template is reduced to its collision mask. */
  predicate CanCollide(template: Option<U32>)
  {
    template.Some? && template.value != 0
  }

  /** An object without a template, or with collision mask 0, never
      collides; any other mask makes it a candidate. */
  lemma CollisionNeedsMask(mask: U32)
    ensures !CanCollide(None) && !CanCollide(Some(0))
    ensures mask != 0 ==> CanCollide(Some(mask))
  {
  }
}
