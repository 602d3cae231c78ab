/** Approvals of the generated golden set (evals/golden/build_golden.py).

    A digest of the content is the content itself with its line endings normalised; paths are numbers.
    A run that succeeds writes all its files in one step. */
module GoldenApproval {
  import opened Basics
  import opened Strings

  datatype Approval = Approval(reviewer: Text, at: nat, content: map<nat, Text>)

  datatype Manifest = Missing | Unreadable | MalformedApproval | Unapproved | Approved(approval: Approval)

  datatype Directory = Directory(files: map<nat, Text>, manifest: Manifest)

  /** What the generator writes for a variant seed, apart from the manifest. */
  type Generator = Option<nat> -> map<nat, Text>

  // ---------------------------------------------------------------- content

  /** `replace("\r\n", "\n")`. */
  function LfChars(s: string): string {
    if s == "" then ""
    else if |s| > 1 && s[0] == '\r' && s[1] == '\n' then "\n" + LfChars(s[2..])
    else [s[0]] + LfChars(s[1..])
  }

  function Lf(t: Text): Text {
    Text(LfChars(t.chars))
  }

  function ContentOf(files: map<nat, Text>): map<nat, Text> {
    map p | p in files :: Lf(files[p])
  }

  /** The content of the named files, unless one is missing. */
  function Existing(files: map<nat, Text>, paths: set<nat>): Option<map<nat, Text>> {
    Digested(files, paths, Lf)
  }

  function Digested<V>(files: map<nat, V>, paths: set<nat>, digest: V -> V): Option<map<nat, V>> {
    if paths <= files.Keys then Some(map p | p in paths :: digest(files[p])) else None
  }

  /** Later files replace earlier ones of the same path. */
  function Written(files: map<nat, Text>, outputs: map<nat, Text>): map<nat, Text> {
    files + outputs
  }

  // ---------------------------------------------------------------- building and approving

  /** The approval a build would keep; nothing when the build is refused. */
  function Kept(dir: Directory, outputs: map<nat, Text>, reset: bool): Option<Manifest> {
    match dir.manifest
    case Missing => Some(Unapproved)
    case Unreadable => None
    case MalformedApproval => None
    case Unapproved => Some(Unapproved)
    case Approved(a) =>
      if reset then Some(Unapproved)
      else if a.content != ContentOf(outputs) || Existing(dir.files, outputs.Keys) != Some(a.content) then None
      else Some(Approved(a))
  }

  function AfterBuild(dir: Directory, gen: Generator, seed: Option<int>, reset: bool): Option<Directory> {
    if seed.Some? && seed.value < 0 then None
    else
      var outputs := gen(if seed.Some? then Some(seed.value) else None);
      var kept := Kept(dir, outputs, reset);
      if kept.None? then None else Some(Directory(Written(dir.files, outputs), kept.value))
  }

  predicate Approvable(dir: Directory, outputs: map<nat, Text>, reviewer: Text, underCi: bool) {
    && !underCi && !AllSpace(reviewer.chars)
    && !dir.manifest.Missing? && !dir.manifest.Unreadable?
    && Existing(dir.files, outputs.Keys) == Some(ContentOf(outputs))
  }

  function AfterApprove(dir: Directory, gen: Generator, reviewer: Text, at: nat, underCi: bool): Option<Directory> {
    if !Approvable(dir, gen(None), reviewer, underCi) then None
    else Some(dir.(manifest := Approved(Approval(Text(Strip(reviewer.chars)), at, ContentOf(gen(None))))))
  }

  /** Reads the named files one by one, giving up at the first that is missing. */
  method ReadAll<V>(files: map<nat, V>, paths: set<nat>, digest: V -> V) returns (found: Option<map<nat, V>>)
    ensures found == Digested(files, paths, digest)
  {
    var content: map<nat, V> := map[];
    var left := paths;
    while left != {}
      invariant left <= paths
      invariant forall p :: p in paths && p !in left ==> p in files
      invariant forall p :: p in content <==> p in paths && p !in left
      invariant forall p :: p in content ==> content[p] == digest(files[p])
    {
      var p :| p in left;
      if p !in files {
        return None;
      }
      content := content[p := digest(files[p])];
      left := left - {p};
    }
    assert paths <= files.Keys;
    assert content == Digested(files, paths, digest).value;
    return Some(content);
  }

  method ReadExisting(files: map<nat, Text>, paths: set<nat>) returns (found: Option<map<nat, Text>>)
    ensures found == Existing(files, paths)
  {
    found := ReadAll(files, paths, Lf);
  }

  /** Writes the outputs one by one. */
  method WriteAll<V>(files: map<nat, V>, outputs: map<nat, V>) returns (written: map<nat, V>)
    ensures written == files + outputs
  {
    written := files;
    var left := outputs.Keys;
    while left != {}
      invariant left <= outputs.Keys
      invariant forall p :: p in written <==> p in files || (p in outputs && p !in left)
      invariant forall p :: p in written ==> written[p] == if p in outputs && p !in left then outputs[p] else files[p]
    {
      var p :| p in left;
      written := written[p := outputs[p]];
      left := left - {p};
    }
    assert written == files + outputs;
  }

  /** The output directory. */
  class GoldenDirectory {
    var files: map<nat, Text>
    var manifest: Manifest

    function Contents(): Directory
      reads this
    {
      Directory(files, manifest)
    }

    constructor (dir: Directory)
      ensures Contents() == dir
    {
      files, manifest := dir.files, dir.manifest;
    }

    /** A refused build writes nothing; 2 is its exit code. */
    method Build(gen: Generator, seed: Option<int>, reset: bool) returns (code: nat)
      modifies this
      ensures var after := old(AfterBuild(Contents(), gen, seed, reset));
        if after.Some? then code == 0 && Contents() == after.value else code == 2 && Contents() == old(Contents())
    {
      if seed.Some? && seed.value < 0 {
        return 2;
      }
      var outputs := gen(if seed.Some? then Some(seed.value) else None);
      if manifest.Unreadable? || manifest.MalformedApproval? {
        return 2;
      }
      var kept := if manifest.Approved? then manifest else Unapproved;
      if manifest.Approved? {
        var existing := ReadExisting(files, outputs.Keys);
        var changed := manifest.approval.content != ContentOf(outputs) || existing != Some(manifest.approval.content);
        if changed {
          if !reset {
            return 2;
          }
          kept := Unapproved;
        }
      }
      if reset {
        kept := Unapproved;
      }
      files := WriteAll(files, outputs);
      manifest := kept;
      return 0;
    }

    method Approve(gen: Generator, reviewer: Text, at: nat, underCi: bool) returns (code: nat)
      modifies this
      ensures var after := old(AfterApprove(Contents(), gen, reviewer, at, underCi));
        if after.Some? then code == 0 && Contents() == after.value else code == 2 && Contents() == old(Contents())
    {
      if underCi || AllSpace(reviewer.chars) || manifest.Missing? || manifest.Unreadable? {
        return 2;
      }
      var outputs := gen(None);
      var existing := ReadExisting(files, outputs.Keys);
      if existing != Some(ContentOf(outputs)) {
        return 2;
      }
      manifest := Approved(Approval(Text(Strip(reviewer.chars)), at, ContentOf(outputs)));
      return 0;
    }
  }

  // ---------------------------------------------------------------- one build

  /** A build that passes over an approval leaves it, and the approved content lies there afterwards. */
  lemma {:induction false} ApprovedContentStays(dir: Directory, gen: Generator, seed: Option<int>)
    requires dir.manifest.Approved? && AfterBuild(dir, gen, seed, false).Some?
    ensures var after, a := AfterBuild(dir, gen, seed, false).value, dir.manifest.approval;
      after.manifest == dir.manifest && Existing(after.files, a.content.Keys) == Some(a.content)
  {
    var outputs := gen(if seed.Some? then Some(seed.value) else None);
    WrittenContent(dir.files, outputs);
    assert ContentOf(outputs).Keys == outputs.Keys;
  }

  lemma {:induction false} WrittenContent(files: map<nat, Text>, outputs: map<nat, Text>)
    ensures Existing(Written(files, outputs), outputs.Keys) == Some(ContentOf(outputs))
  {
    assert outputs.Keys <= Written(files, outputs).Keys;
    assert Existing(Written(files, outputs), outputs.Keys).value == ContentOf(outputs);
  }

  // ---------------------------------------------------------------- whole runs

  /** Builds and approvals, hand edits of data files and new generators, in any order. */
  datatype Step =
    | Build(seed: Option<int>, reset: bool)
    | Approve(reviewer: Text, at: nat, underCi: bool)
    | Edit(path: nat, content: Option<Text>)
    | Release(gen: Generator)

  /** `seen` is what lay in the directory at each approval; `edited` whether a file was edited since the
      last success. */
  datatype World = World(dir: Directory, gen: Generator, seen: seq<Approval>, edited: bool)

  ghost function Take(w: World, step: Step): World {
    match step
    case Build(seed, reset) =>
      var after := AfterBuild(w.dir, w.gen, seed, reset);
      if after.None? then w else w.(dir := after.value, edited := false)
    case Approve(reviewer, at, underCi) =>
      var after, content := AfterApprove(w.dir, w.gen, reviewer, at, underCi), Existing(w.dir.files, w.gen(None).Keys);
      if after.None? || content.None? then w
      else w.(dir := after.value, seen := w.seen + [Approval(Text(Strip(reviewer.chars)), at, content.value)],
        edited := false)
    case Edit(path, content) =>
      var files := if content.Some? then w.dir.files[path := content.value] else w.dir.files - {path};
      w.(dir := w.dir.(files := files), edited := true)
    case Release(gen) => w.(gen := gen)
  }

  ghost function Run(w: World, steps: seq<Step>): World {
    if steps == [] then w else Take(Run(w, steps[..|steps| - 1]), steps[|steps| - 1])
  }

  ghost predicate Honest(w: World) {
    w.dir.manifest.Approved? ==>
      && w.dir.manifest.approval in w.seen
      && (!w.edited ==>
            var content := w.dir.manifest.approval.content;
            Existing(w.dir.files, content.Keys) == Some(content))
  }

  lemma {:induction false} StepIsHonest(w: World, step: Step)
    requires Honest(w)
    ensures Honest(Take(w, step))
  {
    match step
    case Build(seed, reset) =>
      if w.dir.manifest.Approved? && AfterBuild(w.dir, w.gen, seed, reset).Some? && !reset {
        ApprovedContentStays(w.dir, w.gen, seed);
      }
    case Approve(reviewer, at, underCi) =>
      assert ContentOf(w.gen(None)).Keys == w.gen(None).Keys;
    case Edit(path, content) =>
    case Release(gen) =>
  }

  /** Whatever approval a manifest carries, some reviewer gave it to exactly the content that lay there then; and
      unless a file was edited since the last successful build or approval, that content still lies there. */
  lemma {:induction false} ApprovalsAreHonest(w: World, steps: seq<Step>)
    requires !w.dir.manifest.Approved?
    ensures Honest(Run(w, steps))
  {
    if steps != [] {
      ApprovalsAreHonest(w, steps[..|steps| - 1]);
      StepIsHonest(Run(w, steps[..|steps| - 1]), steps[|steps| - 1]);
    }
  }

  // ---------------------------------------------------------------- what counts as the same content

  lemma Regrouped(a: string, b: string, c: string)
    ensures a + (b + "\n" + c) == a + b + "\n" + c
  {
    ConcatAssoc(a, b + "\n", c);
    ConcatAssoc(a, b, "\n");
  }

  /** Wherever a carriage return stands before a line feed it is taken out ... */
  lemma {:induction false} ReturnsAreDropped(a: string, b: string)
    ensures LfChars(a + "\r\n" + b) == LfChars(a) + "\n" + LfChars(b)
  {
    var s := a + "\r\n" + b;
    if a == "" {
      assert s[2..] == b;
    } else if |a| > 1 && a[0] == '\r' && a[1] == '\n' {
      ReturnsAreDropped(a[2..], b);
      assert s[2..] == a[2..] + "\r\n" + b;
      Regrouped("\n", LfChars(a[2..]), LfChars(b));
    } else {
      ReturnsAreDropped(a[1..], b);
      assert s[1..] == a[1..] + "\r\n" + b;
      Regrouped([a[0]], LfChars(a[1..]), LfChars(b));
    }
  }

  /** ... and a text without such a pair stays as it is. */
  lemma {:induction false} OtherTextIsKept(s: string)
    requires forall i :: 0 <= i < |s| - 1 ==> s[i] != '\r' || s[i + 1] != '\n'
    ensures LfChars(s) == s
  {
    if s != "" {
      forall i | 0 <= i < |s[1..]| - 1 ensures s[1..][i] != '\r' || s[1..][i + 1] != '\n' {
        assert s[i + 1] != '\r' || s[i + 2] != '\n';
      }
      OtherTextIsKept(s[1..]);
    }
  }
}
