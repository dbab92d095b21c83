/**
 * The effects of `do_prepare` and `do_finish`: creating the output
 * directory, opening and closing `index.html`, and checking every registered
 * example and schema file, warning about a missing one and copying a present
 * one into the output directory.
 */
module Finish {
  import opened XmlLinks

  datatype FileKind = Example | Schema

  datatype Effect =
    | MadeDir(dir: string)                 // Dir.mkdir
    | OpenedIndex(path: string)            // File.new(path, "w")
    | Announced(path: string)              // "Written <path>." on standard output
    | Missing(kind: FileKind, file: string) // "XML Example|Schema '<file>' is missing." on standard error
    | Copied(file: string, dir: string)    // File.copy file, dir
    | ClosedIndex(path: string)            // @index.close

  /** The path `do_prepare` opens: `@output_dir + "/index.html"`. */
  function IndexPath(dir: string): string
  {
    dir + "/index.html"
  }

  /** `do_prepare`: create the directory unless it exists, then open the index. */
  function PrepareEffects(dir: string, files: set<string>): seq<Effect>
  {
    (if dir in files then [] else [MadeDir(dir)]) + [OpenedIndex(IndexPath(dir))]
  }

  /** One registered file: copy it if it exists, warn otherwise. */
  function Check(kind: FileKind, f: string, files: set<string>, dir: string): Effect
  {
    if f in files then Copied(f, dir) else Missing(kind, f)
  }

  /** One loop of `do_finish` over a registry, in registration order. */
  function CheckFiles(kind: FileKind, reg: seq<string>, files: set<string>, dir: string): seq<Effect>
  {
    if reg == [] then []
    else CheckFiles(kind, reg[..|reg| - 1], files, dir) + [Check(kind, reg[|reg| - 1], files, dir)]
  }

  /** One step of a registry loop. */
  lemma CheckFilesStep(kind: FileKind, reg: seq<string>, i: int, files: set<string>, dir: string)
    requires 0 <= i < |reg|
    ensures CheckFiles(kind, reg[..i + 1], files, dir) == CheckFiles(kind, reg[..i], files, dir) + [Check(kind, reg[i], files, dir)]
  {
    assert reg[..i + 1][..i] == reg[..i];
  }

  /** Everything `do_finish` does, in order. */
  function FinishEffects(index: string, examples: seq<string>, schemas: seq<string>, files: set<string>, dir: string): seq<Effect>
  {
    [Announced(index)] + CheckFiles(Example, examples, files, dir) + CheckFiles(Schema, schemas, files, dir)
    + [ClosedIndex(index)]
  }

  lemma LastNotInInit(reg: seq<string>)
    requires NoDup(reg) && reg != []
    ensures NoDup(reg[..|reg| - 1]) && reg[|reg| - 1] !in reg[..|reg| - 1]
    ensures forall g :: g in reg <==> g in reg[..|reg| - 1] || g == reg[|reg| - 1]
  {
    var init := reg[..|reg| - 1];
    assert reg == init + [reg[|reg| - 1]];
  }

  /** Over a registry without duplicates: one warning per missing file, none for others. */
  lemma {:induction false} MissingOnce(kind: FileKind, reg: seq<string>, files: set<string>, dir: string, f: string)
    requires NoDup(reg)
    ensures multiset(CheckFiles(kind, reg, files, dir))[Missing(kind, f)] == if f in reg && f !in files then 1 else 0
  {
    if reg != [] {
      var init, g := reg[..|reg| - 1], reg[|reg| - 1];
      LastNotInInit(reg);
      MissingOnce(kind, init, files, dir, f);
      var e := Check(kind, g, files, dir);
      assert multiset(CheckFiles(kind, reg, files, dir))
          == multiset(CheckFiles(kind, init, files, dir)) + multiset{e};
    }
  }

  /** Over a registry without duplicates: one copy per present file, none for others. */
  lemma {:induction false} CopiedOnce(kind: FileKind, reg: seq<string>, files: set<string>, dir: string, f: string)
    requires NoDup(reg)
    ensures multiset(CheckFiles(kind, reg, files, dir))[Copied(f, dir)] == if f in reg && f in files then 1 else 0
  {
    if reg != [] {
      var init, g := reg[..|reg| - 1], reg[|reg| - 1];
      LastNotInInit(reg);
      CopiedOnce(kind, init, files, dir, f);
      var e := Check(kind, g, files, dir);
      assert multiset(CheckFiles(kind, reg, files, dir))
          == multiset(CheckFiles(kind, init, files, dir)) + multiset{e};
    }
  }

  /** A registry loop checks every registered file. */
  lemma {:induction false} CheckFilesCovers(kind: FileKind, reg: seq<string>, files: set<string>, dir: string, f: string)
    requires f in reg
    ensures Check(kind, f, files, dir) in CheckFiles(kind, reg, files, dir)
  {
    var init := reg[..|reg| - 1];
    if f != reg[|reg| - 1] {
      assert reg == init + [reg[|reg| - 1]];
      CheckFilesCovers(kind, init, files, dir, f);
    }
  }

  /** A registry loop only warns with its own kind and only copies into `dir`. */
  lemma {:induction false} CheckFilesKinds(kind: FileKind, reg: seq<string>, files: set<string>, dir: string)
    ensures forall e :: e in CheckFiles(kind, reg, files, dir) ==>
      (e.Missing? && e.kind == kind && e.file in reg && e.file !in files) || (e.Copied? && e.dir == dir && e.file in reg && e.file in files)
  {
    if reg != [] {
      var init := reg[..|reg| - 1];
      CheckFilesKinds(kind, init, files, dir);
      assert forall g :: g in init ==> g in reg;
    }
  }

  /** Where an effect of `do_finish` comes from: the two registry loops. */
  lemma FinishParts(index: string, examples: seq<string>, schemas: seq<string>, files: set<string>, dir: string)
    ensures var es := FinishEffects(index, examples, schemas, files, dir);
      multiset(es) == multiset([Announced(index)]) + multiset(CheckFiles(Example, examples, files, dir))
                      + multiset(CheckFiles(Schema, schemas, files, dir)) + multiset([ClosedIndex(index)])
  {
    MultisetOfFour([Announced(index)], CheckFiles(Example, examples, files, dir),
                   CheckFiles(Schema, schemas, files, dir), [ClosedIndex(index)]);
  }

  /**
   * `do_finish` over registries without duplicates warns exactly once about
   * each missing registered example and each missing registered schema, and
   * never about any other file.
   */
  lemma {:induction false} FinishWarnsOnce(index: string, examples: seq<string>, schemas: seq<string>, files: set<string>, dir: string, f: string)
    requires NoDup(examples) && NoDup(schemas)
    ensures var es := FinishEffects(index, examples, schemas, files, dir);
      && multiset(es)[Missing(Example, f)] == (if f in examples && f !in files then 1 else 0)
      && multiset(es)[Missing(Schema, f)] == (if f in schemas && f !in files then 1 else 0)
  {
    var ex := CheckFiles(Example, examples, files, dir);
    var sc := CheckFiles(Schema, schemas, files, dir);
    var es := FinishEffects(index, examples, schemas, files, dir);
    var m := multiset([Announced(index)]) + multiset(ex) + multiset(sc) + multiset([ClosedIndex(index)]);
    FinishParts(index, examples, schemas, files, dir);
    assert multiset(es) == m;
    MissingOnce(Example, examples, files, dir, f);
    MissingOnce(Schema, schemas, files, dir, f);
    CheckFilesKinds(Example, examples, files, dir);
    CheckFilesKinds(Schema, schemas, files, dir);
    assert multiset(sc)[Missing(Example, f)] == 0 by {
      assert Missing(Example, f) !in sc;
    }
    assert multiset(ex)[Missing(Schema, f)] == 0 by {
      assert Missing(Schema, f) !in ex;
    }
    assert m[Missing(Example, f)] == multiset(ex)[Missing(Example, f)];
    assert m[Missing(Schema, f)] == multiset(sc)[Missing(Schema, f)];
  }

  /**
   * `do_finish` copies a file iff it is registered and exists, and never
   * both copies and warns about the same file.
   */
  lemma {:induction false} FinishCopiesPresent(index: string, examples: seq<string>, schemas: seq<string>, files: set<string>, dir: string, f: string)
    ensures var es := FinishEffects(index, examples, schemas, files, dir);
      && (Copied(f, dir) in es <==> (f in examples || f in schemas) && f in files)
      && (Copied(f, dir) in es ==> Missing(Example, f) !in es && Missing(Schema, f) !in es)
  {
    var ex := CheckFiles(Example, examples, files, dir);
    var sc := CheckFiles(Schema, schemas, files, dir);
    var es := FinishEffects(index, examples, schemas, files, dir);
    assert es == [Announced(index)] + ex + sc + [ClosedIndex(index)];
    CheckFilesKinds(Example, examples, files, dir);
    CheckFilesKinds(Schema, schemas, files, dir);
    if f in files {
      if f in examples { CheckFilesCovers(Example, examples, files, dir, f); }
      if f in schemas { CheckFilesCovers(Schema, schemas, files, dir, f); }
    }
  }

  lemma MultisetOfFour<T>(a: seq<T>, b: seq<T>, c: seq<T>, d: seq<T>)
    ensures multiset(a + b + c + d) == multiset(a) + multiset(b) + multiset(c) + multiset(d)
  {
  }
}
