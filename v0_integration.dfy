/** The runtime helpers that adapt generated components: the props converter, which
    folds the objects of the known utility classes into one `sx` object and copies three
    props, and the choice of the component for a generated element type. */
module V0Integration {
  import opened Common
  import opened Strings

  /** A value in an `sx` object; every number in the table is an integer. */
  datatype SxValue = SxNum(n: int) | SxStr(s: string)

  type SxObject = map<string, SxValue>

  /** `tailwindToMui`: each utility class and the `sx` object it stands for. */
  const TAILWIND_TO_MUI: map<string, SxObject> := map[
    "p-2" := map["p" := SxNum(1)],
    "p-4" := map["p" := SxNum(2)],
    "p-6" := map["p" := SxNum(3)],
    "p-8" := map["p" := SxNum(4)],
    "m-2" := map["m" := SxNum(1)],
    "m-4" := map["m" := SxNum(2)],
    "m-6" := map["m" := SxNum(3)],
    "m-8" := map["m" := SxNum(4)],
    "px-4" := map["px" := SxNum(2)],
    "py-2" := map["py" := SxNum(1)],
    "py-4" := map["py" := SxNum(2)],
    "mb-4" := map["mb" := SxNum(2)],
    "mt-4" := map["mt" := SxNum(2)],
    "bg-white" := map["bgcolor" := SxStr("background.paper")],
    "bg-gray-50" := map["bgcolor" := SxStr("grey.50")],
    "bg-gray-100" := map["bgcolor" := SxStr("grey.100")],
    "bg-blue-500" := map["bgcolor" := SxStr("primary.main")],
    "text-gray-600" := map["color" := SxStr("text.secondary")],
    "text-gray-900" := map["color" := SxStr("text.primary")],
    "rounded" := map["borderRadius" := SxNum(1)],
    "rounded-lg" := map["borderRadius" := SxNum(2)],
    "rounded-xl" := map["borderRadius" := SxNum(3)],
    "shadow" := map["boxShadow" := SxNum(1)],
    "shadow-md" := map["boxShadow" := SxNum(2)],
    "shadow-lg" := map["boxShadow" := SxNum(4)],
    "flex" := map["display" := SxStr("flex")],
    "flex-col" := map["flexDirection" := SxStr("column")],
    "items-center" := map["alignItems" := SxStr("center")],
    "justify-between" := map["justifyContent" := SxStr("space-between")],
    "justify-center" := map["justifyContent" := SxStr("center")],
    "grid" := map["display" := SxStr("grid")],
    "grid-cols-2" := map["gridTemplateColumns" := SxStr("repeat(2, 1fr)")],
    "grid-cols-3" := map["gridTemplateColumns" := SxStr("repeat(3, 1fr)")],
    "gap-4" := map["gap" := SxNum(2)],
    "w-full" := map["width" := SxStr("100%")],
    "h-full" := map["height" := SxStr("100%")],
    "min-h-screen" := map["minHeight" := SxStr("100vh")]
  ]

  /** `componentMap` of `createMuiComponent`. */
  const COMPONENT_MAP: map<string, string> := map[
    "button" := "Button",
    "input" := "TextField",
    "card" := "Card",
    "div" := "Box",
    "text" := "Typography",
    "icon" := "Icon"
  ]

  /** The props read from a generated element; a click handler is named by an identifier
      and, being a function, is always truthy. */
  datatype V0Props = V0Props(className: Option<string>, onClick: Option<nat>, disabled: Option<bool>, variant: Option<string>)

  /** `muiProps`; a field that was never set is `None`. */
  datatype MuiProps = MuiProps(sx: Option<SxObject>, onClick: Option<nat>, disabled: Option<bool>, variant: Option<string>)

  /** The object of one class in a class table, empty for a class the table lacks. */
  function ClassSx(table: map<string, SxObject>, cls: string): SxObject {
    if cls in table then table[cls] else map[]
  }

  /** The `sx` object after the objects of the classes were spread into it, one after the
      other. */
  function SxOf(table: map<string, SxObject>, classes: seq<string>): SxObject {
    if classes == [] then map[] else SxOf(table, classes[..|classes| - 1]) + ClassSx(table, classes[|classes| - 1])
  }

  /** Spreading the classes of `a + b` is spreading those of `b` over those of `a`. */
  lemma {:induction false} SxOfConcat(table: map<string, SxObject>, a: seq<string>, b: seq<string>)
    ensures SxOf(table, a + b) == SxOf(table, a) + SxOf(table, b)
  {
    if b == [] {
      assert a + b == a;
      assert SxOf(table, a) + map[] == SxOf(table, a);
    } else {
      var init := b[..|b| - 1];
      var last := ClassSx(table, b[|b| - 1]);
      assert (a + b)[..|a + b| - 1] == a + init;
      assert (a + b)[|a + b| - 1] == b[|b| - 1];
      SxOfConcat(table, a, init);
      MergeAssoc(SxOf(table, a), SxOf(table, init), last);
    }
  }

  /** Spreading is associative. */
  lemma MergeAssoc(x: SxObject, y: SxObject, z: SxObject)
    ensures (x + y) + z == x + (y + z)
  {
  }

  /** A key is set exactly when some known class of the list sets it. */
  lemma {:induction false} SxOfKeys(table: map<string, SxObject>, classes: seq<string>, k: string)
    ensures k in SxOf(table, classes) <==> exists i :: 0 <= i < |classes| && classes[i] in table && k in table[classes[i]]
  {
    if classes != [] {
      var init := classes[..|classes| - 1];
      SxOfKeys(table, init, k);
      if exists i :: 0 <= i < |init| && init[i] in table && k in table[init[i]] {
        var i :| 0 <= i < |init| && init[i] in table && k in table[init[i]];
        assert classes[i] == init[i];
      }
      if exists i :: 0 <= i < |classes| && classes[i] in table && k in table[classes[i]] {
        var i :| 0 <= i < |classes| && classes[i] in table && k in table[classes[i]];
        if i < |init| {
          assert init[i] == classes[i];
        }
      }
    }
  }

  /** For a key several classes set, the last of them decides its value. */
  lemma LaterOverrides(table: map<string, SxObject>, a: seq<string>, cls: string, b: seq<string>, k: string)
    requires cls in table && k in table[cls]
    requires forall i :: 0 <= i < |b| && b[i] in table ==> k !in table[b[i]]
    ensures k in SxOf(table, a + [cls] + b) && SxOf(table, a + [cls] + b)[k] == table[cls][k]
  {
    SxOfConcat(table, a + [cls], b);
    SxOfConcat(table, a, [cls]);
    assert [cls][..0] == [];
    SxOfKeys(table, b, k);
  }

  /** A class the table lacks changes nothing. */
  lemma UnknownIgnored(table: map<string, SxObject>, a: seq<string>, cls: string, b: seq<string>)
    requires cls !in table
    ensures SxOf(table, a + [cls] + b) == SxOf(table, a + b)
  {
    SxOfConcat(table, a + [cls], b);
    SxOfConcat(table, a, [cls]);
    SxOfConcat(table, a, b);
    var e: SxObject := map[];
    assert SxOf(table, [cls]) == e by {
      assert [cls][..0] == [];
      assert SxOf(table, [cls]) == e + ClassSx(table, cls);
    }
    assert SxOf(table, a) + e == SxOf(table, a);
  }

  /** One loop step: spreading one more class. */
  lemma SxOfSnoc(table: map<string, SxObject>, classes: seq<string>, i: int)
    requires 0 <= i < |classes|
    ensures SxOf(table, classes[..i + 1]) == SxOf(table, classes[..i]) + ClassSx(table, classes[i])
  {
    assert classes[..i + 1][..i] == classes[..i];
  }

  /** What `convertV0Props` returns: `sx` only for a truthy `className`, built from its
      pieces split at every space; each of the three other props only when truthy. */
  function ConvertedProps(props: V0Props): (r: MuiProps)
    ensures r.sx.Some? <==> TruthyOptStr(props.className)
    ensures r.onClick == props.onClick
    ensures r.disabled.Some? <==> props.disabled == Some(true)
    ensures r.disabled.Some? ==> r.disabled.value
    ensures r.variant.Some? <==> TruthyOptStr(props.variant)
    ensures r.variant.Some? ==> r.variant == props.variant
  {
    MuiProps(if TruthyOptStr(props.className) then Some(SxOf(TAILWIND_TO_MUI, Split(props.className.value, ' '))) else None,
             props.onClick,
             if props.disabled == Some(true) then Some(true) else None,
             if TruthyOptStr(props.variant) then props.variant else None)
  }

  /** The loop of `convertV0Props`: `sx = { ...sx, ...table[cls] }` for every class the
      table knows, in order. */
  method Spread(table: map<string, SxObject>, classes: seq<string>) returns (sx: SxObject)
    ensures sx == SxOf(table, classes)
  {
    sx := map[];
    var i := 0;
    while i < |classes|
      invariant 0 <= i <= |classes|
      invariant sx == SxOf(table, classes[..i])
    {
      SxOfSnoc(table, classes, i);
      if classes[i] in table {
        sx := sx + table[classes[i]];
      } else {
        assert sx + map[] == sx;
      }
      i := i + 1;
    }
    assert classes[..i] == classes;
  }

  /** `convertV0Props`. */
  method ConvertV0Props(props: V0Props) returns (r: MuiProps)
    ensures r == ConvertedProps(props)
  {
    r := MuiProps(None, None, None, None);
    if TruthyOptStr(props.className) {
      var classes := Split(props.className.value, ' ');
      var sx := Spread(TAILWIND_TO_MUI, classes);
      r := r.(sx := Some(sx));
    }
    if props.onClick.Some? {
      r := r.(onClick := props.onClick);
    }
    if props.disabled == Some(true) {
      r := r.(disabled := props.disabled);
    }
    if TruthyOptStr(props.variant) {
      r := r.(variant := props.variant);
    }
  }

  /** The component chosen for an element type: its entry, or `Box`. */
  function ComponentName(componentType: string): (r: string)
    ensures r in COMPONENT_MAP.Values
    ensures r == "Box" <==> componentType !in COMPONENT_MAP || componentType == "div"
  {
    if componentType in COMPONENT_MAP then
      assert COMPONENT_MAP[componentType] in COMPONENT_MAP.Values;
      COMPONENT_MAP[componentType]
    else
      assert COMPONENT_MAP["div"] == "Box";
      "Box"
  }

  /** The result of `createMuiComponent`, without its children, which pass through. */
  datatype MuiComponent = MuiComponent(component: string, props: MuiProps)

  /** `createMuiComponent`. */
  method CreateMuiComponent(componentType: string, props: V0Props) returns (r: MuiComponent)
    ensures r.component == ComponentName(componentType)
    ensures r.props == ConvertedProps(props)
  {
    var muiProps := ConvertV0Props(props);
    var component := if componentType in COMPONENT_MAP then COMPONENT_MAP[componentType] else "Box";
    r := MuiComponent(component, muiProps);
  }
}
