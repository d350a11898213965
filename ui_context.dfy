/**
 * The prompt context that describes a UI component library to the model:
 * a header naming the library, then one entry per component of its dump.
 * The dumps are inputs here (already parsed).
 */
module UiContext {
  import opened Wrappers

  /** The `UiLibrary` union of three names. */
  datatype UiLibrary = NextUI | Flowbite | Shadcn {
    function Name(): string {
      match this
      case NextUI => "nextui"
      case Flowbite => "flowbite"
      case Shadcn => "shadcn"
    }

    /** `toUpperCase()` of the name. */
    function UpperCaseName(): string {
      match this
      case NextUI => "NEXTUI"
      case Flowbite => "FLOWBITE"
      case Shadcn => "SHADCN"
    }
  }

  /** `libraries`, in this order. */
  const Libraries: seq<UiLibrary> := [NextUI, Flowbite, Shadcn]

  datatype ComponentExample = ComponentExample(source: string, code: string)

  /** One component of a dump; `examples` is the dump's `docs.examples`. */
  datatype Component = Component(name: string, description: string, examples: seq<ComponentExample>)

  // ----------------------------------------------------------- selection

  /** The library whose name is `s`, if any. */
  function FromName(s: string): (r: Option<UiLibrary>)
    ensures r.Some? ==> r.value.Name() == s
    ensures r.None? ==> forall l: UiLibrary :: l.Name() != s
  {
    if s == "nextui" then Some(NextUI)
    else if s == "flowbite" then Some(Flowbite)
    else if s == "shadcn" then Some(Shadcn)
    else None
  }

  /** `isUILibrary`: `libraries.includes(lib)`. */
  predicate IsUILibrary(lib: Option<string>) {
    lib.Some? && FromName(lib.value).Some?
  }

  /** `selectUILibrary`: the given library when it names one of the three, else shadcn. */
  function SelectUILibrary(library: Option<string>): (r: UiLibrary)
    ensures IsUILibrary(library) <==> library.Some? && exists l: UiLibrary :: l.Name() == library.value
    ensures IsUILibrary(library) ==> r.Name() == library.value
    ensures !IsUILibrary(library) ==> r == Shadcn
    ensures r in Libraries
  {
    if IsUILibrary(library) then FromName(library.value).value else Shadcn
  }

  /** Selecting the selected library again gives it back. */
  lemma SelectUILibraryIdempotent(library: Option<string>)
    ensures SelectUILibrary(Some(SelectUILibrary(library).Name())) == SelectUILibrary(library)
  {
  }

  // ----------------------------------------------------------- formatting

  function LibraryHeader(library: UiLibrary): string {
    library.UpperCaseName() + " Components:\n"
  }

  function ComponentLine(c: Component): string {
    "- " + c.name + ": " + c.description + "\n"
  }

  function ExampleBlock(code: string): string {
    "  Example:\n" + code + "\n\n"
  }

  /** What one component contributes: its line, then the first example's block if it has one. */
  function ComponentEntry(c: Component): string {
    ComponentLine(c) + if |c.examples| > 0 then ExampleBlock(c.examples[0].code) else ""
  }

  /** An entry starts with the component's line and goes on with an example block iff there is an example. */
  lemma ComponentEntryShape(c: Component)
    ensures |ComponentEntry(c)| >= |ComponentLine(c)|
    ensures ComponentEntry(c)[..|ComponentLine(c)|] == ComponentLine(c)
    ensures |ComponentEntry(c)| > |ComponentLine(c)| <==> |c.examples| > 0
    ensures |c.examples| > 0 ==> ComponentEntry(c)[|ComponentLine(c)|..] == ExampleBlock(c.examples[0].code)
  {
  }

  /** The entries of `dump`, in dump order. */
  function ComponentsContext(dump: seq<Component>): string {
    if dump == [] then "" else ComponentsContext(dump[..|dump| - 1]) + ComponentEntry(dump[|dump| - 1])
  }

  /** `generateLibraryContext` as a value. */
  function LibraryContext(library: UiLibrary, dump: seq<Component>): string {
    LibraryHeader(library) + ComponentsContext(dump)
  }

  /** Regrouping a concatenation; stated over plain strings so the solver need not unfold their definitions. */
  lemma Associative(x: string, y: string, z: string)
    ensures (x + y) + z == x + (y + z)
  {
  }

  /** The library context opens with the upper-cased library name and " Components:". */
  lemma LibraryContextHeader(library: UiLibrary, dump: seq<Component>)
    ensures library.UpperCaseName() + " Components:\n" <= LibraryContext(library, dump)
  {
  }

  /** The context of two dumps one after the other is the two contexts one after the other. */
  lemma {:induction false} ComponentsContextAppend(a: seq<Component>, b: seq<Component>)
    ensures ComponentsContext(a + b) == ComponentsContext(a) + ComponentsContext(b)
    decreases |b|
  {
    if b == [] {
      assert a + b == a;
    } else {
      var init := b[..|b| - 1];
      assert (a + b)[..|a + b| - 1] == a + init;
      assert ComponentsContext(a + b) == ComponentsContext(a + init) + ComponentEntry(b[|b| - 1]);
      ComponentsContextAppend(a, init);
      Associative(ComponentsContext(a), ComponentsContext(init), ComponentEntry(b[|b| - 1]));
    }
  }

  /** Taking one more component of the dump appends that component's entry. */
  lemma ComponentsContextSnoc(dump: seq<Component>, i: nat)
    requires i < |dump|
    ensures ComponentsContext(dump[..i + 1]) == ComponentsContext(dump[..i]) + ComponentEntry(dump[i])
  {
    assert dump[..i + 1][..i] == dump[..i];
  }

  /** Component `i` contributes exactly its entry, after the entries of the components before it. */
  lemma EntryInDumpOrder(dump: seq<Component>, i: nat)
    requires i < |dump|
    ensures ComponentsContext(dump) ==
            ComponentsContext(dump[..i]) + ComponentEntry(dump[i]) + ComponentsContext(dump[i + 1..])
  {
    assert dump == dump[..i + 1] + dump[i + 1..];
    ComponentsContextAppend(dump[..i + 1], dump[i + 1..]);
    ComponentsContextSnoc(dump, i);
  }

  /** Two components look alike in the context when all the context shows of them agrees. */
  predicate SameShown(c: Component, d: Component) {
    c.name == d.name && c.description == d.description &&
    (|c.examples| > 0 <==> |d.examples| > 0) &&
    (|c.examples| > 0 ==> c.examples[0].code == d.examples[0].code)
  }

  /** Only the first example's code is used: sources and later examples do not affect the context. */
  lemma {:induction false} ContextShowsOnlyFirstExample(a: seq<Component>, b: seq<Component>)
    requires |a| == |b| && forall i :: 0 <= i < |a| ==> SameShown(a[i], b[i])
    ensures ComponentsContext(a) == ComponentsContext(b)
    decreases |a|
  {
    if a != [] {
      ContextShowsOnlyFirstExample(a[..|a| - 1], b[..|b| - 1]);
      assert ComponentEntry(a[|a| - 1]) == ComponentEntry(b[|b| - 1]);
    }
  }

  /** Appending a component's line and then, if it has one, its example block appends its entry. */
  lemma AppendEntry(x: string, c: Component)
    ensures x + ComponentEntry(c) ==
            if |c.examples| > 0 then x + ComponentLine(c) + ExampleBlock(c.examples[0].code) else x + ComponentLine(c)
  {
    if |c.examples| > 0 {
      assert x + ComponentEntry(c) == x + (ComponentLine(c) + ExampleBlock(c.examples[0].code));
    } else {
      assert ComponentEntry(c) == ComponentLine(c);
    }
  }

  lemma LibraryContextSnoc(library: UiLibrary, dump: seq<Component>, i: nat)
    requires i < |dump|
    ensures LibraryContext(library, dump[..i + 1]) == LibraryContext(library, dump[..i]) + ComponentEntry(dump[i])
  {
    ComponentsContextSnoc(dump, i);
  }

  /** `generateLibraryContext`: the header, then one entry per component in dump order. */
  method GenerateLibraryContext(library: UiLibrary, dump: seq<Component>) returns (context: string)
    ensures context == LibraryContext(library, dump)
  {
    context := LibraryHeader(library);
    assert dump[..0] == [];
    for i := 0 to |dump|
      invariant context == LibraryContext(library, dump[..i])
    {
      ghost var before := context;
      context := context + ComponentLine(dump[i]);
      if |dump[i].examples| > 0 {
        context := context + ExampleBlock(dump[i].examples[0].code);
      }
      AppendEntry(before, dump[i]);
      LibraryContextSnoc(library, dump, i);
    }
    assert dump[..|dump|] == dump;
  }

  // ------------------------------------------------------ prompt contexts

  function ForComponentPrefix(library: UiLibrary): string {
    "When generating React component code, use ONLY components from the " + library.Name() + " UI library:\n\n"
  }

  const ForComponentTrailer: string :=
    "\n    When asked to generate UI components or layouts, refer to this library and use its components.\n" +
    "    If a requested component is not available in this library, use the closest alternative or combine\n" +
    "    existing components to achieve the desired functionality.\n"

  /** `generateUILibraryContextForComponent`, given the library's parsed dump. */
  method GenerateUILibraryContextForComponent(selectedLibrary: UiLibrary, dump: seq<Component>)
    returns (context: string)
    ensures context == ForComponentPrefix(selectedLibrary) + LibraryContext(selectedLibrary, dump) + ForComponentTrailer
  {
    context := ForComponentPrefix(selectedLibrary);
    var libraryContext := GenerateLibraryContext(selectedLibrary, dump);
    context := context + libraryContext;
    context := context + ForComponentTrailer;
  }

  const AllLibrariesHeader: string :=
    "When generating React component code, use ONLY components from the following UI libraries:\n\n"

  const AllLibrariesTrailer: string :=
    "\nWhen asked to generate UI components or layouts, refer to these libraries and use their components. " +
    "If a requested component is not available in these libraries, use the closest alternative or combine " +
    "existing components to achieve the desired functionality."

  /** The library contexts of `libs`, one after the other. */
  function LibraryContexts(libs: seq<UiLibrary>, dumpOf: UiLibrary -> seq<Component>): string {
    if libs == [] then "" else LibraryContexts(libs[..|libs| - 1], dumpOf) + LibraryContext(libs[|libs| - 1], dumpOf(libs[|libs| - 1]))
  }

  /** The libraries' contexts come in the order nextui, flowbite, shadcn. */
  lemma LibraryContextsInOrder(dumpOf: UiLibrary -> seq<Component>)
    ensures LibraryContexts(Libraries, dumpOf) ==
            LibraryContext(NextUI, dumpOf(NextUI)) +
            LibraryContext(Flowbite, dumpOf(Flowbite)) +
            LibraryContext(Shadcn, dumpOf(Shadcn))
  {
    var libs := Libraries;
    var one, two := libs[..1], libs[..2];
    assert libs[..|libs| - 1] == two && two[..|two| - 1] == one && one[..|one| - 1] == [];
    assert LibraryContexts(one, dumpOf) == LibraryContext(NextUI, dumpOf(NextUI));
    assert LibraryContexts(two, dumpOf) == LibraryContexts(one, dumpOf) + LibraryContext(Flowbite, dumpOf(Flowbite));
    assert LibraryContexts(libs, dumpOf) == LibraryContexts(two, dumpOf) + LibraryContext(Shadcn, dumpOf(Shadcn));
  }

  lemma HeaderedContextsSnoc(libs: seq<UiLibrary>, dumpOf: UiLibrary -> seq<Component>, i: nat)
    requires i < |libs|
    ensures AllLibrariesHeader + LibraryContexts(libs[..i + 1], dumpOf) ==
            AllLibrariesHeader + LibraryContexts(libs[..i], dumpOf) + LibraryContext(libs[i], dumpOf(libs[i]))
  {
    assert libs[..i + 1][..i] == libs[..i];
  }

  lemma AllLibrariesShape(dumpOf: UiLibrary -> seq<Component>)
    ensures AllLibrariesHeader + LibraryContexts(Libraries, dumpOf) + AllLibrariesTrailer ==
            AllLibrariesHeader +
            LibraryContext(NextUI, dumpOf(NextUI)) +
            LibraryContext(Flowbite, dumpOf(Flowbite)) +
            LibraryContext(Shadcn, dumpOf(Shadcn)) +
            AllLibrariesTrailer
  {
    LibraryContextsInOrder(dumpOf);
    var a, b, c := LibraryContext(NextUI, dumpOf(NextUI)), LibraryContext(Flowbite, dumpOf(Flowbite)),
                   LibraryContext(Shadcn, dumpOf(Shadcn));
    Associative(AllLibrariesHeader, a + b, c);
    Associative(AllLibrariesHeader, a, b);
  }

  /** `generateUILibraryContext`, given each library's parsed dump. */
  method GenerateUILibraryContext(dumpOf: UiLibrary -> seq<Component>) returns (context: string)
    ensures context == AllLibrariesHeader +
                       LibraryContext(NextUI, dumpOf(NextUI)) +
                       LibraryContext(Flowbite, dumpOf(Flowbite)) +
                       LibraryContext(Shadcn, dumpOf(Shadcn)) +
                       AllLibrariesTrailer
  {
    context := AllLibrariesHeader;
    var libs := Libraries;
    assert libs[..0] == [];
    for i := 0 to |libs|
      invariant context == AllLibrariesHeader + LibraryContexts(libs[..i], dumpOf)
    {
      var libraryContext := GenerateLibraryContext(libs[i], dumpOf(libs[i]));
      HeaderedContextsSnoc(libs, dumpOf, i);
      context := context + libraryContext;
    }
    assert libs[..|libs|] == Libraries;
    context := context + AllLibrariesTrailer;
    AllLibrariesShape(dumpOf);
  }
}
