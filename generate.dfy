/** The pure core of the protoc plugin in auto_proto_doc/generate.py: how
    the comments of one SourceCodeInfo location become one description
    (`populate_descriptions`), which input files are skipped as library
    files, what each output file is called, and the loop of `generate` that
    ties building, describing and naming together. */
module Generate {
  import opened Util
  import opened Descriptor
  import Doc
  import Addressing
  import Build
  import Model

  // ---------------------------------------------------------------------
  // The text of one location

  /** `" ".join(parts)`. */
  function Join(parts: seq<string>): string
    decreases |parts|
  {
    if |parts| == 0 then ""
    else if |parts| == 1 then parts[0]
    else parts[0] + " " + Join(parts[1..])
  }

  /** Joining one more part appends a space and that part. */
  lemma {:induction false} JoinAppend(parts: seq<string>, s: string)
    requires parts != []
    ensures Join(parts + [s]) == Join(parts) + " " + s
    decreases |parts|
  {
    if |parts| == 1 {
      assert (parts + [s])[1..] == [s];
    } else {
      assert (parts + [s])[1..] == parts[1..] + [s];
      JoinAppend(parts[1..], s);
    }
  }

  /** The list `desc` that `populate_descriptions` collects for a location:
      the leading comment when it is non-empty, the trailing comment when it
      is non-empty, then every detached comment, empty ones included. */
  function Pieces(loc: Location): seq<string> {
    (if loc.leadingComments != "" then [loc.leadingComments] else [])
    + (if loc.trailingComments != "" then [loc.trailingComments] else [])
    + loc.leadingDetachedComments
  }

  /** The description a location contributes, or None when `desc` is empty
      and `add_description` is not called. */
  function CommentText(loc: Location): Option<string> {
    var ps := Pieces(loc);
    if ps == [] then None else Some(Join(ps))
  }

  /** A location contributes nothing exactly when both of its comments are
      empty and it has no detached comments. */
  lemma CommentTextNone(loc: Location)
    ensures CommentText(loc).None?
        <==> loc.leadingComments == "" && loc.trailingComments == "" && loc.leadingDetachedComments == []
  {
    if loc.leadingComments != "" {
      assert Pieces(loc)[0] == loc.leadingComments;
    } else if loc.trailingComments != "" {
      assert Pieces(loc)[0] == loc.trailingComments;
    }
  }

  /** A lone leading comment passes through unchanged. */
  lemma LeadingOnly(loc: Location)
    requires loc.leadingComments != "" && loc.trailingComments == "" && loc.leadingDetachedComments == []
    ensures CommentText(loc) == Some(loc.leadingComments)
  {
    assert Pieces(loc) == [loc.leadingComments];
  }

  /** The text starts with the leading comment when there is one and ends
      with the last detached comment when there are any. */
  lemma CommentTextEnds(loc: Location)
    ensures loc.leadingComments != "" ==>
      CommentText(loc).Some? && loc.leadingComments <= CommentText(loc).value
    ensures loc.leadingDetachedComments != [] ==>
      var ds := loc.leadingDetachedComments;
      CommentText(loc).Some? && var t := CommentText(loc).value;
      |ds[|ds| - 1]| <= |t| && t[|t| - |ds[|ds| - 1]|..] == ds[|ds| - 1]
  {
    var ps := Pieces(loc);
    if loc.leadingComments != "" {
      assert ps[0] == loc.leadingComments;
    }
    var ds := loc.leadingDetachedComments;
    if ds != [] {
      var last := ds[|ds| - 1];
      if |ps| == 1 {
        assert Join(ps) == last;
      } else {
        assert ps == ps[..|ps| - 1] + [last];
        JoinAppend(ps[..|ps| - 1], last);
      }
    }
  }

  // ---------------------------------------------------------------------
  // populate_descriptions

  /** The tree after describing, and the error that stopped it if any. */
  datatype Described = Described(file: Doc.File, raised: Option<Doc.PathError>)

  /** One iteration: call `add_description` when the location has text. */
  function Apply(f: Doc.File, loc: Location): Described {
    match CommentText(loc)
    case None => Described(f, None)
    case Some(d) =>
      match Doc.FileAddDescription(f, d, loc.path)
      case Ok(g) => Described(g, None)
      case Err(e) => Described(f, Some(e))
  }

  /** The locations applied in list order; the first error stops the loop
      and leaves the descriptions applied before it in place. */
  function Populate(f: Doc.File, locs: seq<Location>): Described
    decreases |locs|
  {
    if locs == [] then Described(f, None)
    else
      var before := Populate(f, locs[..|locs| - 1]);
      if before.raised.Some? then before else Apply(before.file, locs[|locs| - 1])
  }

  /** Once a prefix of the locations raises, the rest are not looked at. */
  lemma {:induction false} PopulateStops(f: Doc.File, locs: seq<Location>, i: nat)
    requires i <= |locs| && Populate(f, locs[..i]).raised.Some?
    ensures Populate(f, locs) == Populate(f, locs[..i])
    decreases |locs|
  {
    if i < |locs| {
      assert locs[..|locs| - 1][..i] == locs[..i];
      PopulateStops(f, locs[..|locs| - 1], i);
    } else {
      assert locs[..i] == locs;
    }
  }

  /** The locations that have comment text. */
  function Commented(locs: seq<Location>): (r: seq<Location>)
    decreases |locs|
  {
    if locs == [] then []
    else
      var init := Commented(locs[..|locs| - 1]);
      if CommentText(locs[|locs| - 1]).Some? then init + [locs[|locs| - 1]] else init
  }

  /** Locations without comment text change nothing: describing with all of
      them equals describing with only the commented ones. */
  lemma {:induction false} PopulateIgnoresSilent(f: Doc.File, locs: seq<Location>)
    ensures Populate(f, locs) == Populate(f, Commented(locs))
    decreases |locs|
  {
    if locs != [] {
      var init, last := locs[..|locs| - 1], locs[|locs| - 1];
      PopulateIgnoresSilent(f, init);
      if CommentText(last).Some? {
        var c := Commented(init) + [last];
        assert c[..|c| - 1] == Commented(init);
      }
    }
  }

  /** Of two consecutive locations with the same path, the later one's text
      is the one that remains; the earlier one can be dropped. */
  lemma PopulateOverwrite(f: Doc.File, locs: seq<Location>, l1: Location, l2: Location)
    requires l1.path == l2.path && CommentText(l2).Some?
    ensures Populate(f, locs + [l1, l2]) == Populate(f, locs + [l2])
  {
    var both, one := locs + [l1, l2], locs + [l2];
    assert both[..|both| - 1] == locs + [l1];
    assert (locs + [l1])[..|locs|] == locs;
    assert one[..|one| - 1] == locs;
    var before := Populate(f, locs);
    if before.raised.None? {
      match CommentText(l1)
      case None =>
      case Some(d1) =>
        var d2 := CommentText(l2).value;
        var w1 := Doc.FileAddDescription(before.file, d1, l1.path);
        if w1.Ok? {
          assert Populate(f, locs + [l1]) == Described(w1.value, None);
          Addressing.FileOverwrite(before.file, d1, d2, l1.path);
          Addressing.FileErrorIgnoresText(before.file, d2, d1, l1.path);
          assert Apply(w1.value, l2) == Apply(before.file, l2);
        } else {
          assert Populate(f, locs + [l1]) == Described(before.file, Some(w1.error));
          Addressing.FileErrorIgnoresText(before.file, d1, d2, l1.path);
          assert Apply(before.file, l2) == Described(before.file, Some(w1.error));
        }
    }
  }

  /** The text of the last location in `locs` that has text and whose path
      designates, in `f`, a node at address `a` that takes a description;
      None when there is no such location. */
  function LastText(f: Doc.File, locs: seq<Location>, a: seq<int>): Option<string>
    decreases |locs|
  {
    if locs == [] then None
    else
      var loc := locs[|locs| - 1];
      var t := Addressing.LocateFile(f, loc.path);
      if CommentText(loc).Some? && t.Some? && t.value.addr == a && Addressing.Writable(t.value.kind)
      then CommentText(loc)
      else LastText(f, locs[..|locs| - 1], a)
  }

  /** The last write wins: when no location raises, every node of the file
      carries the text of the last commented location that designates it,
      whatever locations come in between and however its path spells the
      indices (negative ones included), and keeps its old description when
      no location designates it. */
  lemma {:induction false} PopulateLastWins(f: Doc.File, locs: seq<Location>, q: seq<int>)
    requires Populate(f, locs).raised.None?
    ensures var l := Addressing.LocateFile(f, q);
      Addressing.LocateFile(Populate(f, locs).file, q) ==
        if l.Some? && LastText(f, locs, l.value.addr).Some?
        then Some(l.value.(description := LastText(f, locs, l.value.addr).value))
        else l
    decreases |locs|
  {
    if locs != [] {
      var init, last := locs[..|locs| - 1], locs[|locs| - 1];
      var before := Populate(f, init);
      assert before.raised.None?;
      PopulateLastWins(f, init, q);
      match CommentText(last)
      case None =>
      case Some(d) =>
        var g := before.file;
        assert Doc.FileAddDescription(g, d, last.path).Ok?;
        PopulateLastWins(f, init, last.path);
        Addressing.FileLens(g, d, last.path, q);
    }
  }

  /** Describing changes descriptions only (Addressing.EraseFile forgets
      them); names, types, flags and every list keep their shape. */
  lemma {:induction false} PopulateShape(f: Doc.File, locs: seq<Location>)
    ensures Addressing.EraseFile(Populate(f, locs).file) == Addressing.EraseFile(f)
    decreases |locs|
  {
    if locs != [] {
      var before := Populate(f, locs[..|locs| - 1]);
      PopulateShape(f, locs[..|locs| - 1]);
      var last := locs[|locs| - 1];
      if before.raised.None? && CommentText(last).Some?
        && Doc.FileAddDescription(before.file, CommentText(last).value, last.path).Ok? {
        Addressing.FileShape(before.file, CommentText(last).value, last.path);
      }
    }
  }

  /** No location ever gives a Service or an enum value a description. */
  lemma {:induction false} PopulateQuiet(f: Doc.File, locs: seq<Location>)
    requires Addressing.FileQuiet(f)
    ensures Addressing.FileQuiet(Populate(f, locs).file)
    decreases |locs|
  {
    if locs != [] {
      var before := Populate(f, locs[..|locs| - 1]);
      PopulateQuiet(f, locs[..|locs| - 1]);
      var last := locs[|locs| - 1];
      if before.raised.None? && CommentText(last).Some?
        && Doc.FileAddDescription(before.file, CommentText(last).value, last.path).Ok? {
        Addressing.FileStaysQuiet(before.file, CommentText(last).value, last.path);
      }
    }
  }

  /** `populate_descriptions`: walks the locations of the proto_file in
      order and attaches each one's text to the node its path designates. */
  method PopulateDescriptions(f: Model.File, fd: FileDescriptor) returns (raised: Option<Doc.PathError>)
    requires f.Valid()
    modifies f.Repr
    ensures Populate(old(f.View()), fd.locations) == Described(f.View(), raised)
  {
    ghost var v0 := f.View();
    var locs := fd.locations;
    raised := None;
    assert locs[..0] == [];
    for i := 0 to |locs|
      invariant raised.None? && Populate(v0, locs[..i]) == Described(f.View(), None)
    {
      assert locs[..i + 1][..i] == locs[..i];
      var loc := locs[i];
      var desc: seq<string> := [];
      if loc.leadingComments != "" {
        desc := desc + [loc.leadingComments];
      }
      if loc.trailingComments != "" {
        desc := desc + [loc.trailingComments];
      }
      if loc.leadingDetachedComments != [] {
        desc := desc + loc.leadingDetachedComments;
      }
      assert desc == Pieces(loc);
      if desc != [] {
        raised := f.AddDescription(Join(desc), loc.path);
        if raised.Some? {
          PopulateStops(v0, locs, i + 1);
          return;
        }
      }
    }
    assert locs[..|locs|] == locs;
  }

  // ---------------------------------------------------------------------
  // The output file name

  /** The position of the last `c` in `s`. */
  function LastIndex(s: string, c: char): (r: Option<nat>)
    ensures r.Some? ==> r.value < |s| && s[r.value] == c && forall j :: r.value < j < |s| ==> s[j] != c
    ensures r.None? ==> forall j :: 0 <= j < |s| ==> s[j] != c
    decreases |s|
  {
    if s == [] then None
    else if s[|s| - 1] == c then Some(|s| - 1)
    else LastIndex(s[..|s| - 1], c)
  }

  /** `s.rsplit(c, 1)[0]`: everything before the last `c`, or all of `s`. */
  function BeforeLast(s: string, c: char): string {
    match LastIndex(s, c)
    case None => s
    case Some(i) => s[..i]
  }

  /** `s.rsplit(c, 1)[-1]`: everything after the last `c`, or all of `s`. */
  function AfterLast(s: string, c: char): string {
    match LastIndex(s, c)
    case None => s
    case Some(i) => s[i + 1..]
  }

  /** The name of the markdown file generated for an input file. */
  function OutputName(name: string): string {
    AfterLast(BeforeLast(name, '.'), '/') + ".md"
  }

  /** The last `c` of `s + [c] + t` is the one in the middle when `t` has none. */
  lemma {:induction false} LastIndexSplit(s: string, c: char, t: string)
    requires c !in t
    ensures LastIndex(s + [c] + t, c) == Some(|s|)
    decreases |t|
  {
    var u := s + [c] + t;
    if t != [] {
      assert u[..|u| - 1] == s + [c] + t[..|t| - 1];
      LastIndexSplit(s, c, t[..|t| - 1]);
    } else {
      assert u[|u| - 1] == c;
    }
  }

  /** "dir/base.ext" becomes "base.md" when the base has neither a "/" nor
      a "." and the extension has no ".". */
  lemma OutputNameOfPath(dir: string, base: string, ext: string)
    requires '/' !in base && '.' !in base && '.' !in ext
    ensures OutputName(dir + "/" + base + "." + ext) == base + ".md"
  {
    var stem := dir + "/" + base;
    assert dir + "/" + base + "." + ext == stem + ['.'] + ext;
    LastIndexSplit(stem, '.', ext);
    assert BeforeLast(stem + ['.'] + ext, '.') == stem;
    assert stem == dir + ['/'] + base;
    LastIndexSplit(dir, '/', base);
    assert stem[|dir| + 1..] == base;
  }

  /** A name without a directory: "base.ext" becomes "base.md". */
  lemma OutputNameTopLevel(base: string, ext: string)
    requires '/' !in base && '.' !in base && '.' !in ext
    ensures OutputName(base + "." + ext) == base + ".md"
  {
    assert base + "." + ext == base + ['.'] + ext;
    LastIndexSplit(base, '.', ext);
    assert BeforeLast(base + ['.'] + ext, '.') == base;
  }

  /** "a/b.proto" becomes "b.md". */
  lemma OutputNameExample()
    ensures OutputName("a/b.proto") == "b.md"
  {
    assert "a" + "/" + "b" + "." + "proto" == "a/b.proto";
    assert '.' !in "proto" && '/' !in "b" && '.' !in "b";
    OutputNameOfPath("a", "b", "proto");
    assert "b" + ".md" == "b.md";
  }

  /** The name before ".md" never contains a "/". */
  lemma OutputNameHasNoDirectory(name: string)
    ensures var o := OutputName(name); |o| >= 3 && '/' !in o[..|o| - 3]
  {
    var o := OutputName(name);
    assert o[..|o| - 3] == AfterLast(BeforeLast(name, '.'), '/');
  }

  /** The "." is searched for before the "/": a dot in a directory name and
      none in the file name cuts the directory name, so "a.b/c" becomes
      "a.md". */
  lemma OutputNameDotInDirectory()
    ensures OutputName("a.b/c") == "a.md"
  {
    assert "a.b/c" == "a" + ['.'] + "b/c";
    LastIndexSplit("a", '.', "b/c");
    assert BeforeLast("a.b/c", '.') == "a";
    assert LastIndex("a", '/') == None;
  }

  // ---------------------------------------------------------------------
  // The library-file filter

  /** `str.lower` on ASCII letters. */
  function LowerChar(c: char): char {
    if 'A' <= c <= 'Z' then (c as int + 32) as char else c
  }

  function Lower(s: string): string {
    seq(|s|, i requires 0 <= i < |s| => LowerChar(s[i]))
  }

  /** `f.name.lower().startswith("google")`. */
  predicate IsLibraryFile(name: string) {
    var l := Lower(name);
    |l| >= 6 && l[..6] == "google"
  }

  /** A file is skipped exactly when its first six characters spell
      "google" in any mix of letter cases. */
  lemma LibraryFileIff(name: string)
    ensures IsLibraryFile(name)
        <==> |name| >= 6 && forall i :: 0 <= i < 6 ==> name[i] == "google"[i] || name[i] == "GOOGLE"[i]
  {
    if |name| >= 6 {
      var l := Lower(name);
      if forall i :: 0 <= i < 6 ==> name[i] == "google"[i] || name[i] == "GOOGLE"[i] {
        assert l[..6] == "google";
      }
      if l[..6] == "google" {
        forall i | 0 <= i < 6
          ensures name[i] == "google"[i] || name[i] == "GOOGLE"[i]
        {
          assert LowerChar(name[i]) == "google"[i];
        }
      }
    }
  }

  // ---------------------------------------------------------------------
  // generate

  /** The ways `generate` can fail before it writes its response. */
  datatype GenError = BuildFailed(Build.BuildError) | DescribeFailed(Doc.PathError)

  /** One entry of the response: its file name and the described tree that
      is rendered into its content. */
  datatype Output = Output(name: string, file: Doc.File)

  /** The entries of several files in order, stopping at the first error. */
  function Collect(rs: seq<Result<seq<Output>, GenError>>): Result<seq<Output>, GenError> {
    if rs == [] then Ok([])
    else
      var init :- Collect(rs[..|rs| - 1]);
      var e :- rs[|rs| - 1];
      Ok(init + e)
  }

  /** What each built file contributes, position by position. */
  function Entries(files: seq<Doc.File>, fds: seq<FileDescriptor>): seq<Result<seq<Output>, GenError>>
    requires |files| == |fds|
  {
    seq(|files|, i requires 0 <= i < |files| => Entry(files[i], fds[i]))
  }

  /** The loop of `generate` over the built files and their proto_files. */
  function DescribeAll(files: seq<Doc.File>, fds: seq<FileDescriptor>): Result<seq<Output>, GenError>
    requires |files| == |fds|
  {
    Collect(Entries(files, fds))
  }

  /** The entries one file adds: none for a library file, otherwise its
      name and described tree, unless describing raises. */
  function Entry(f: Doc.File, fd: FileDescriptor): Result<seq<Output>, GenError> {
    if IsLibraryFile(f.name) then Ok([])
    else
      var d := Populate(f, fd.locations);
      if d.raised.Some? then Err(DescribeFailed(d.raised.value))
      else Ok([Output(OutputName(f.name), d.file)])
  }

  /** What `generate` computes: every file is built first, then each
      non-library file is described and named. */
  function Generated(req: Request): Result<seq<Output>, GenError> {
    match Build.BuildFiles(req.protoFiles)
    case Err(e) => Err(BuildFailed(e))
    case Ok(files) =>
      Build.FilesAt(req.protoFiles);
      DescribeAll(files, req.protoFiles)
  }

  /** The positions of the files that are not skipped, in order. */
  function Kept(files: seq<Doc.File>): (r: seq<nat>)
    decreases |files|
  {
    if files == [] then []
    else
      var n := |files| - 1;
      if IsLibraryFile(files[n].name) then Kept(files[..n]) else Kept(files[..n]) + [n]
  }

  /** Kept lists, in increasing order, exactly the non-library files. */
  lemma {:induction false} KeptExactly(files: seq<Doc.File>)
    ensures forall j :: 0 <= j < |Kept(files)| ==> Kept(files)[j] < |files|
    ensures forall j, k :: 0 <= j < k < |Kept(files)| ==> Kept(files)[j] < Kept(files)[k]
    ensures forall i :: 0 <= i < |files| ==> (i in Kept(files) <==> !IsLibraryFile(files[i].name))
    decreases |files|
  {
    if files != [] {
      var n := |files| - 1;
      KeptExactly(files[..n]);
      assert forall i :: 0 <= i < n ==> files[..n][i] == files[i];
    }
  }

  /** Once a prefix fails, the whole collection fails with that error. */
  lemma {:induction false} CollectStops(rs: seq<Result<seq<Output>, GenError>>, i: nat)
    requires i <= |rs| && Collect(rs[..i]).Err?
    ensures Collect(rs) == Collect(rs[..i])
  {
    if i < |rs| {
      var n := |rs| - 1;
      assert rs[..n][..i] == rs[..i];
      CollectStops(rs[..n], i);
    } else {
      assert rs[..i] == rs;
    }
  }

  /** Collecting succeeds exactly when no entry is an error. */
  lemma {:induction false} CollectOk(rs: seq<Result<seq<Output>, GenError>>)
    ensures Collect(rs).Ok? <==> forall i :: 0 <= i < |rs| ==> rs[i].Ok?
  {
    if rs != [] {
      var n := |rs| - 1;
      CollectOk(rs[..n]);
      assert forall i :: 0 <= i < n ==> rs[..n][i] == rs[i];
    }
  }

  /** One more entry that is not an error extends the collection. */
  lemma CollectStep(rs: seq<Result<seq<Output>, GenError>>, i: nat, before: seq<Output>)
    requires i < |rs| && Collect(rs[..i]) == Ok(before) && rs[i].Ok?
    ensures Collect(rs[..i + 1]) == Ok(before + rs[i].value)
  {
    assert rs[..i + 1][..i] == rs[..i];
  }

  /** An entry that is an error ends the collection with that error. */
  lemma CollectFails(rs: seq<Result<seq<Output>, GenError>>, i: nat)
    requires i < |rs| && Collect(rs[..i]).Ok? && rs[i].Err?
    ensures Collect(rs) == Err(rs[i].error)
  {
    assert rs[..i + 1][..i] == rs[..i];
    CollectStops(rs, i + 1);
  }

  lemma EntriesPrefix(files: seq<Doc.File>, fds: seq<FileDescriptor>, n: nat)
    requires |files| == |fds| && n <= |files|
    ensures Entries(files[..n], fds[..n]) == Entries(files, fds)[..n]
  {
  }

  /** Describing succeeds exactly when no file's entry raises. */
  lemma DescribeAllOk(files: seq<Doc.File>, fds: seq<FileDescriptor>)
    requires |files| == |fds|
    ensures DescribeAll(files, fds).Ok? <==> forall i :: 0 <= i < |files| ==> Entry(files[i], fds[i]).Ok?
  {
    var rs := Entries(files, fds);
    CollectOk(rs);
    assert forall i :: 0 <= i < |files| ==> rs[i] == Entry(files[i], fds[i]);
  }

  /** A successful description has one entry per kept file, in order,
      named by OutputName and holding that file's described tree. */
  lemma {:induction false} DescribeAllEntries(files: seq<Doc.File>, fds: seq<FileDescriptor>)
    requires |files| == |fds| && DescribeAll(files, fds).Ok?
    ensures var out, ks := DescribeAll(files, fds).value, Kept(files);
      |out| == |ks|
      && forall j :: 0 <= j < |ks| ==>
        ks[j] < |files|
        && out[j] == Output(OutputName(files[ks[j]].name), Populate(files[ks[j]], fds[ks[j]].locations).file)
    decreases |files|
  {
    if files != [] {
      var n := |files| - 1;
      var pf, pd := files[..n], fds[..n];
      var rs := Entries(files, fds);
      EntriesPrefix(files, fds, n);
      assert rs[..n] == Entries(pf, pd);
      var init := DescribeAll(pf, pd).value;
      var e := Entry(files[n], fds[n]).value;
      var out := DescribeAll(files, fds).value;
      assert out == init + e;
      DescribeAllEntries(pf, pd);
      KeptExactly(pf);
      var pk := Kept(pf);
      assert Kept(files) == pk + (if IsLibraryFile(files[n].name) then [] else [n]);
      forall j | 0 <= j < |pk|
        ensures out[j] == Output(OutputName(files[pk[j]].name), Populate(files[pk[j]], fds[pk[j]].locations).file)
      {
        assert pf[pk[j]] == files[pk[j]] && pd[pk[j]] == fds[pk[j]];
      }
    }
  }

  /** `generate` succeeds exactly when every file builds and no non-library
      file raises while being described; its response then has one entry
      per non-library file, in request order, and none for library files. */
  lemma GeneratedEntries(req: Request)
    ensures Generated(req).Ok? <==>
      forall i :: 0 <= i < |req.protoFiles| ==>
        var fd := req.protoFiles[i];
        Build.BuildFile(fd).Ok?
        && (!IsLibraryFile(fd.name) ==> Populate(Build.BuildFile(fd).value, fd.locations).raised.None?)
    ensures Generated(req).Ok? ==>
      var fds := req.protoFiles;
      var out, ks := Generated(req).value, Kept(Build.BuildFiles(fds).value);
      |out| == |ks|
      && (forall i :: 0 <= i < |fds| ==> (i in ks <==> !IsLibraryFile(fds[i].name)))
      && forall j :: 0 <= j < |ks| ==>
        ks[j] < |fds| && Build.BuildFile(fds[ks[j]]).Ok?
        && out[j] == Output(OutputName(fds[ks[j]].name), Populate(Build.BuildFile(fds[ks[j]]).value, fds[ks[j]].locations).file)
  {
    var fds := req.protoFiles;
    Build.FilesAt(fds);
    if Build.BuildFiles(fds).Ok? {
      var files := Build.BuildFiles(fds).value;
      DescribeAllOk(files, fds);
      if DescribeAll(files, fds).Ok? {
        DescribeAllEntries(files, fds);
      }
      KeptExactly(files);
    }
  }

  /** A file's entry in the response holds a tree of the same shape as the
      built one, in which no Service and no enum value has a description. */
  lemma GeneratedQuiet(fd: FileDescriptor)
    requires Build.BuildFile(fd).Ok?
    ensures var f := Build.BuildFile(fd).value; var p := Populate(f, fd.locations).file;
      Addressing.EraseFile(p) == f && Addressing.FileQuiet(p)
  {
    var f := Build.BuildFile(fd).value;
    Build.FileBlank(fd);
    PopulateShape(f, fd.locations);
    Addressing.ErasedFileQuiet(f);
    PopulateQuiet(f, fd.locations);
  }

  ghost function OutputsView(outs: seq<(string, Model.File)>): (r: seq<Output>)
    requires forall i :: 0 <= i < |outs| ==> outs[i].1.Valid()
    reads set i, o | 0 <= i < |outs| && o in outs[i].1.Repr :: o
    ensures |r| == |outs|
  {
    seq(|outs|, i requires 0 <= i < |outs| && outs[i].1.Valid()
                  reads set j, o | 0 <= j < |outs| && o in outs[j].1.Repr :: o
                  => Output(outs[i].0, outs[i].1.View()))
  }

  lemma OutputsViewAppend(outs: seq<(string, Model.File)>, name: string, f: Model.File)
    requires forall i :: 0 <= i < |outs| ==> outs[i].1.Valid()
    requires f.Valid()
    ensures OutputsView(outs + [(name, f)]) == OutputsView(outs) + [Output(name, f.View())]
  {
  }

  /** One step of the loop of `generate` for a non-library file: describe
      it and add its entry; the entries already made are left as they were. */
  method Emit(outs: seq<(string, Model.File)>, f: Model.File, fd: FileDescriptor)
    returns (outs': seq<(string, Model.File)>, raised: Option<Doc.PathError>)
    requires forall j :: 0 <= j < |outs| ==> outs[j].1.Valid() && outs[j].1.Repr !! f.Repr
    requires f.Valid()
    modifies f.Repr
    ensures forall j :: 0 <= j < |outs| ==> outs[j].1.Valid()
    ensures Populate(old(f.View()), fd.locations) == Described(f.View(), raised)
    ensures raised.None? ==>
      outs' == outs + [(OutputName(f.name), f)]
      && OutputsView(outs') == old(OutputsView(outs)) + [Output(OutputName(f.name), f.View())]
  {
    ghost var ov := OutputsView(outs);
    raised := PopulateDescriptions(f, fd);
    assert OutputsView(outs) == ov;
    outs' := outs + [(OutputName(f.name), f)];
    OutputsViewAppend(outs, OutputName(f.name), f);
  }

  /** What the loop of `generate` knows before file `i`: every file from
      `i` on is still as built, and each entry so far is an earlier file. */
  ghost predicate DescribedUpTo(files: seq<Model.File>, fds: seq<FileDescriptor>, views: seq<Doc.File>, i: nat,
                                outs: seq<(string, Model.File)>, idx: seq<nat>)
    requires |files| == |fds| == |views| && i <= |files|
    requires forall j :: 0 <= j < |files| ==> files[j].Valid()
    reads set j, o | 0 <= j < |files| && o in files[j].Repr :: o
  {
    (forall k :: i <= k < |files| ==> files[k].View() == views[k])
    && |idx| == |outs| && (forall j :: 0 <= j < |outs| ==> idx[j] < i && outs[j].1 == files[idx[j]])
    && Collect(Entries(views, fds)[..i]) == Ok(OutputsView(outs))
  }

  /** One iteration of the loop of `generate`. */
  method DescribeAt(files: seq<Model.File>, fds: seq<FileDescriptor>, ghost views: seq<Doc.File>, i: nat,
                    outs: seq<(string, Model.File)>, ghost idx: seq<nat>)
    returns (outs': seq<(string, Model.File)>, ghost idx': seq<nat>, raised: Option<Doc.PathError>)
    requires |files| == |fds| == |views| && i < |files|
    requires forall j :: 0 <= j < |files| ==> files[j].Valid()
    requires Disjoint(Model.FileParts(files))
    requires DescribedUpTo(files, fds, views, i, outs, idx)
    modifies files[i].Repr
    ensures raised.None? ==> DescribedUpTo(files, fds, views, i + 1, outs', idx')
    ensures raised.Some? ==> DescribeAll(views, fds) == Err(DescribeFailed(raised.value))
  {
    var f := files[i];
    assert Model.FileParts(files)[i] == f.Repr;
    ghost var vi := f.View();
    assert vi == views[i] && vi.name == f.name;
    ghost var ov := OutputsView(outs);
    if IsLibraryFile(f.name) {
      assert Entry(vi, fds[i]) == Ok([]);
      CollectStep(Entries(views, fds), i, ov);
      assert ov + [] == ov;
      return outs, idx, None;
    }
    assert forall j :: 0 <= j < |outs| ==> outs[j].1.Repr !! f.Repr;
    assert forall k :: i < k < |files| ==> files[k].Repr !! f.Repr;
    outs', raised := Emit(outs, f, fds[i]);
    idx' := idx + [i];
    if raised.Some? {
      assert Entry(vi, fds[i]) == Err(DescribeFailed(raised.value));
      CollectFails(Entries(views, fds), i);
      return;
    }
    assert Entry(vi, fds[i]) == Ok([Output(OutputName(f.name), f.View())]);
    CollectStep(Entries(views, fds), i, ov);
  }

  /** The loop of `generate` over built files that do not share objects. */
  method DescribeFiles(files: seq<Model.File>, fds: seq<FileDescriptor>)
    returns (r: Result<seq<(string, Model.File)>, GenError>)
    requires |files| == |fds|
    requires forall j :: 0 <= j < |files| ==> files[j].Valid()
    requires Disjoint(Model.FileParts(files))
    modifies set j, o | 0 <= j < |files| && o in files[j].Repr :: o
    ensures match DescribeAll(old(Model.FilesView(files)), fds)
      case Ok(v) => r.Ok? && (forall j :: 0 <= j < |r.value| ==> r.value[j].1.Valid()) && OutputsView(r.value) == v
      case Err(e) => r == Err(e)
  {
    ghost var views := Model.FilesView(files);
    var outs: seq<(string, Model.File)> := [];
    ghost var idx: seq<nat> := [];
    assert Entries(views, fds)[..0] == [];
    for i := 0 to |files|
      invariant DescribedUpTo(files, fds, views, i, outs, idx)
    {
      var raised;
      outs, idx, raised := DescribeAt(files, fds, views, i, outs, idx);
      if raised.Some? {
        return Err(DescribeFailed(raised.value));
      }
    }
    assert Entries(views, fds)[..|files|] == Entries(views, fds);
    return Ok(outs);
  }

  /** `generate` without its I/O: builds every file, then describes and
      names each non-library one; rendering the tree is not modelled. */
  method Generate(req: Request) returns (r: Result<seq<(string, Model.File)>, GenError>)
    ensures match Generated(req)
      case Ok(v) => r.Ok? && (forall j :: 0 <= j < |r.value| ==> r.value[j].1.Valid()) && OutputsView(r.value) == v
      case Err(e) => r == Err(e)
  {
    var built := Model.BuildFiles(req);
    if built.Err? {
      return Err(BuildFailed(built.error));
    }
    Build.FilesAt(req.protoFiles);
    r := DescribeFiles(built.value, req.protoFiles);
  }
}
