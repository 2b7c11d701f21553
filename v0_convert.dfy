/** The class converter of the command-line script that rewrites generated components:
    a `className` attribute becomes the text of an `sx` attribute, one entry per known
    utility class, in the order the classes are written. */
module V0Convert {
  import opened Strings
  import opened Seqs

  /** `tailwindToMuiMap`: each utility class and the `sx` entry it stands for. */
  const TAILWIND_TO_MUI_MAP: map<string, string> := map[
    "p-1" := "p: 0.5",
    "p-2" := "p: 1",
    "p-3" := "p: 1.5",
    "p-4" := "p: 2",
    "p-6" := "p: 3",
    "p-8" := "p: 4",
    "px-2" := "px: 1",
    "px-4" := "px: 2",
    "px-6" := "px: 3",
    "py-2" := "py: 1",
    "py-4" := "py: 2",
    "m-2" := "m: 1",
    "m-4" := "m: 2",
    "mb-2" := "mb: 1",
    "mb-4" := "mb: 2",
    "mt-2" := "mt: 1",
    "mt-4" := "mt: 2",
    "gap-2" := "gap: 1",
    "gap-4" := "gap: 2",
    "bg-white" := "bgcolor: \"background.paper\"",
    "bg-gray-50" := "bgcolor: \"grey.50\"",
    "bg-gray-100" := "bgcolor: \"grey.100\"",
    "bg-gray-200" := "bgcolor: \"grey.200\"",
    "bg-blue-500" := "bgcolor: \"primary.main\"",
    "bg-blue-600" := "bgcolor: \"primary.dark\"",
    "text-gray-600" := "color: \"text.secondary\"",
    "text-gray-900" := "color: \"text.primary\"",
    "text-white" := "color: \"white\"",
    "rounded" := "borderRadius: 1",
    "rounded-md" := "borderRadius: 1.5",
    "rounded-lg" := "borderRadius: 2",
    "rounded-xl" := "borderRadius: 3",
    "shadow" := "boxShadow: 1",
    "shadow-sm" := "boxShadow: 1",
    "shadow-md" := "boxShadow: 2",
    "shadow-lg" := "boxShadow: 4",
    "flex" := "display: \"flex\"",
    "flex-col" := "flexDirection: \"column\"",
    "flex-row" := "flexDirection: \"row\"",
    "items-center" := "alignItems: \"center\"",
    "items-start" := "alignItems: \"flex-start\"",
    "justify-center" := "justifyContent: \"center\"",
    "justify-between" := "justifyContent: \"space-between\"",
    "justify-end" := "justifyContent: \"flex-end\"",
    "grid" := "display: \"grid\"",
    "hidden" := "display: \"none\"",
    "w-full" := "width: \"100%\"",
    "h-full" := "height: \"100%\"",
    "min-h-screen" := "minHeight: \"100vh\"",
    "text-sm" := "fontSize: \"0.875rem\"",
    "text-base" := "fontSize: \"1rem\"",
    "text-lg" := "fontSize: \"1.125rem\"",
    "text-xl" := "fontSize: \"1.25rem\"",
    "text-2xl" := "fontSize: \"1.5rem\"",
    "font-medium" := "fontWeight: 500",
    "font-semibold" := "fontWeight: 600",
    "font-bold" := "fontWeight: 700"
  ]

  /** `cls.trim()` is truthy. */
  predicate IsKept(cls: string) {
    !AllSpace(cls)
  }

  /** `className.split(' ').filter(cls => cls.trim())`. */
  function Tokens(className: string): (r: seq<string>)
    ensures forall i :: 0 <= i < |r| ==> ' ' !in r[i] && !AllSpace(r[i])
  {
    var pieces := Split(className, ' ');
    var r := Filter(pieces, IsKept);
    assert forall i :: 0 <= i < |r| ==> ' ' !in r[i] by {
      forall i | 0 <= i < |r| ensures ' ' !in r[i] {
        FilterMembership(pieces, IsKept, r[i]);
      }
    }
    r
  }

  /** The entries pushed onto `sxProps` for the given classes, in order. */
  function SxEntries(table: map<string, string>, classes: seq<string>): (r: seq<string>)
    ensures |r| <= |classes|
    ensures forall k :: 0 <= k < |r| ==> r[k] in table.Values
  {
    if classes == [] then []
    else (if classes[0] in table then [table[classes[0]]] else []) + SxEntries(table, classes[1..])
  }

  /** The text returned for the entries. */
  function SxText(entries: seq<string>): string {
    if |entries| > 0 then "sx={{ " + Join(entries, ", ") + " }}" else ""
  }

  /** The entries of a concatenation are the concatenation of the entries: every class
      contributes independently and in its own position, so duplicates repeat. */
  lemma {:induction false} SxEntriesConcat(table: map<string, string>, a: seq<string>, b: seq<string>)
    ensures SxEntries(table, a + b) == SxEntries(table, a) + SxEntries(table, b)
  {
    if a == [] {
      assert a + b == b;
    } else {
      assert (a + b)[0] == a[0] && (a + b)[1..] == a[1..] + b;
      SxEntriesConcat(table, a[1..], b);
    }
  }

  /** A single class yields its own entry when it is known and nothing otherwise. */
  lemma SxEntriesSingle(table: map<string, string>, cls: string)
    ensures cls in table ==> SxEntries(table, [cls]) == [table[cls]]
    ensures cls !in table ==> SxEntries(table, [cls]) == []
  {
    assert [cls][1..] == [];
  }

  /** No entry at all exactly when no class is known. */
  lemma {:induction false} SxEntriesEmptyIff(table: map<string, string>, classes: seq<string>)
    ensures SxEntries(table, classes) == [] <==> forall i :: 0 <= i < |classes| ==> classes[i] !in table
  {
    if classes != [] {
      SxEntriesEmptyIff(table, classes[1..]);
      assert forall i :: 1 <= i < |classes| ==> classes[i] == classes[1..][i - 1];
    }
  }

  /** An unknown class can be deleted without changing the entries. */
  lemma UnknownDropped(table: map<string, string>, a: seq<string>, cls: string, b: seq<string>)
    requires cls !in table
    ensures SxEntries(table, a + [cls] + b) == SxEntries(table, a + b)
  {
    SxEntriesConcat(table, a + [cls], b);
    SxEntriesConcat(table, a, [cls]);
    SxEntriesConcat(table, a, b);
    SxEntriesSingle(table, cls);
  }

  /** A known class written twice yields its entry twice. */
  lemma DuplicatesKept(table: map<string, string>, a: seq<string>, cls: string, b: seq<string>)
    requires cls in table
    ensures SxEntries(table, a + [cls, cls] + b) == SxEntries(table, a) + [table[cls], table[cls]] + SxEntries(table, b)
  {
    SxEntriesSingle(table, cls);
    SxEntriesConcat(table, [cls], [cls]);
    assert [cls] + [cls] == [cls, cls];
    SxEntriesConcat(table, a + [cls, cls], b);
    SxEntriesConcat(table, a, [cls, cls]);
  }

  /** `convertTailwindToSx`: the empty text when no class is known, otherwise the entries
      of the known classes, in order, joined by ", " inside `sx={{ ` and ` }}`. */
  method ConvertTailwindToSx(className: string) returns (r: string)
    ensures r == SxText(SxEntries(TAILWIND_TO_MUI_MAP, Tokens(className)))
    ensures r == "" <==> forall i :: 0 <= i < |Tokens(className)| ==> Tokens(className)[i] !in TAILWIND_TO_MUI_MAP
  {
    r := ConvertWith(TAILWIND_TO_MUI_MAP, className);
  }

  /** The loop of `convertTailwindToSx` over any class table. */
  method ConvertWith(table: map<string, string>, className: string) returns (r: string)
    ensures r == SxText(SxEntries(table, Tokens(className)))
    ensures r == "" <==> forall i :: 0 <= i < |Tokens(className)| ==> Tokens(className)[i] !in table
  {
    var classes := Tokens(className);
    var sxProps: seq<string> := [];
    var i := 0;
    while i < |classes|
      invariant 0 <= i <= |classes|
      invariant sxProps == SxEntries(table, classes[..i])
    {
      SxEntriesConcat(table, classes[..i], [classes[i]]);
      SxEntriesSingle(table, classes[i]);
      assert classes[..i + 1] == classes[..i] + [classes[i]];
      if classes[i] in table {
        sxProps := sxProps + [table[classes[i]]];
      }
      i := i + 1;
    }
    assert classes[..i] == classes;
    SxEntriesEmptyIff(table, classes);
    if |sxProps| > 0 {
      r := "sx={{ " + Join(sxProps, ", ") + " }}";
    } else {
      r := "";
    }
  }

  /** An empty or blank attribute has no token and converts to the empty text. */
  lemma {:induction false} BlankHasNoTokens(className: string)
    requires AllSpace(className)
    ensures Tokens(className) == []
    ensures SxText(SxEntries(TAILWIND_TO_MUI_MAP, Tokens(className))) == ""
  {
    BlankPiecesBlank(className);
    FilterNone(Split(className, ' '));
  }

  lemma {:induction false} BlankPiecesBlank(s: string)
    requires AllSpace(s)
    ensures forall i :: 0 <= i < |Split(s, ' ')| ==> AllSpace(Split(s, ' ')[i])
  {
    if s != [] {
      BlankPiecesBlank(s[1..]);
      var rest := Split(s[1..], ' ');
      if s[0] != ' ' {
        var r := [[s[0]] + rest[0]] + rest[1..];
        assert forall i :: 1 <= i < |r| ==> r[i] == rest[i];
        assert AllSpace([s[0]] + rest[0]) by {
          assert forall j :: 1 <= j < |[s[0]] + rest[0]| ==> ([s[0]] + rest[0])[j] == rest[0][j - 1];
        }
      } else {
        assert forall i :: 1 <= i < |[""] + rest| ==> ([""] + rest)[i] == rest[i - 1];
      }
    }
  }

  lemma {:induction false} FilterNone(pieces: seq<string>)
    requires forall i :: 0 <= i < |pieces| ==> AllSpace(pieces[i])
    ensures Filter(pieces, IsKept) == []
  {
    if pieces != [] {
      FilterNone(pieces[1..]);
    }
  }

  /** The text of a single known class. */
  lemma SingleKnownClass(cls: string)
    requires cls in TAILWIND_TO_MUI_MAP && ' ' !in cls && !AllSpace(cls)
    ensures SxText(SxEntries(TAILWIND_TO_MUI_MAP, Tokens(cls))) == "sx={{ " + TAILWIND_TO_MUI_MAP[cls] + " }}"
  {
    SplitNoSep(cls, ' ');
    assert Tokens(cls) == [cls] by {
      assert Filter([cls], IsKept) == [cls] + Filter([cls][1..], IsKept);
      assert [cls][1..] == [];
    }
    SxEntriesSingle(TAILWIND_TO_MUI_MAP, cls);
  }
}
