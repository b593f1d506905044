/**
  Lexical path cleaning (`crates/rustlet-build/src/path.rs`) and the working
  directory that `WORKDIR` keeps with it (`crates/rustlet-build/src/config.rs`).
*/
module Path {
  import opened Common

  // --------------------------------------------------------------- splitting

  function Split(s: string): (parts: seq<string>)
    ensures parts != []
  {
    if s == "" then [""] else Prefixed(s[0], Split(s[1..]))
  }

  /** One more character in front: it starts a part, or grows the first. */
  function Prefixed(c: char, parts: seq<string>): (r: seq<string>)
    requires parts != []
    ensures r != []
  {
    if c == '/' then [""] + parts else [[c] + parts[0]] + parts[1..]
  }

  lemma PrefixedFirst(c: char, parts: seq<string>, more: seq<string>)
    requires parts != []
    ensures Prefixed(c, parts + more) == Prefixed(c, parts) + more
  {
    assert (parts + more)[1..] == parts[1..] + more;
  }

  function Join(parts: seq<string>): string {
    if parts == [] then "" else if |parts| == 1 then parts[0] else parts[0] + ("/" + Join(parts[1..]))
  }

  predicate NoSlash(s: string) { forall i :: 0 <= i < |s| ==> s[i] != '/' }

  lemma {:induction false} SplitBetween(p: string, q: string)
    ensures Split(p + ("/" + q)) == Split(p) + Split(q)
  {
    var s := p + ("/" + q);
    if p == "" {
      assert s == "/" + q && s[1..] == q;
    } else {
      assert s[1..] == p[1..] + ("/" + q) && s[0] == p[0];
      SplitBetween(p[1..], q);
      PrefixedFirst(p[0], Split(p[1..]), Split(q));
    }
  }

  lemma {:induction false} SplitPlain(s: string)
    requires NoSlash(s)
    ensures Split(s) == [s]
  {
    if s != "" {
      SplitPlain(s[1..]);
      assert s == [s[0]] + s[1..];
    }
  }

  lemma {:induction false} SplitNoSlash(s: string)
    ensures forall i :: 0 <= i < |Split(s)| ==> NoSlash(Split(s)[i])
  {
    if s != "" {
      SplitNoSlash(s[1..]);
    }
  }

  lemma {:induction false} SplitJoin(parts: seq<string>)
    requires parts != [] && forall i :: 0 <= i < |parts| ==> NoSlash(parts[i])
    ensures Split(Join(parts)) == parts
  {
    SplitPlain(parts[0]);
    if |parts| > 1 {
      SplitBetween(parts[0], Join(parts[1..]));
      SplitJoin(parts[1..]);
      assert parts == [parts[0]] + parts[1..];
    } else {
      assert parts == [parts[0]];
    }
  }

  // ---------------------------------------------------------------- cleaning

  predicate Rooted(path: string) { path != "" && path[0] == '/' }

  /** One component onto the stack of those kept. */
  function Push(rooted: bool, parts: seq<string>, part: string): seq<string> {
    if part == "" || part == "." then parts
    else if part == ".." then
      if parts != [] && parts[|parts| - 1] != ".." then parts[..|parts| - 1]
      else if rooted then parts
      else parts + [".."]
    else parts + [part]
  }

  function Walk(rooted: bool, parts: seq<string>, components: seq<string>): seq<string>
    decreases |components|
  {
    if components == [] then parts else Walk(rooted, Push(rooted, parts, components[0]), components[1..])
  }

  function Render(rooted: bool, parts: seq<string>): string {
    var joined := Join(parts);
    if rooted then "/" + joined else if joined == "" then "." else joined
  }

  function Parts(path: string): seq<string> { Walk(Rooted(path), [], Split(path)) }

  /** `clean`. */
  function Clean(path: string): string { Render(Rooted(path), Parts(path)) }

  predicate Component(part: string) { part != "" && part != "." && NoSlash(part) }

  /** No empty or `.` component, `..` only before every other, and none below a root. */
  predicate Normal(rooted: bool, parts: seq<string>) {
    && (forall i :: 0 <= i < |parts| ==> Component(parts[i]))
    && (forall i, j :: 0 <= i < j < |parts| && parts[j] == ".." ==> parts[i] == "..")
    && (rooted ==> forall i :: 0 <= i < |parts| ==> parts[i] != "..")
  }

  lemma PushNormal(rooted: bool, parts: seq<string>, part: string)
    requires Normal(rooted, parts) && NoSlash(part)
    ensures Normal(rooted, Push(rooted, parts, part))
  {
    assert parts != [] && parts[|parts| - 1] == ".." ==> forall i :: 0 <= i < |parts| ==> parts[i] == "..";
  }

  lemma {:induction false} WalkNormal(rooted: bool, parts: seq<string>, components: seq<string>)
    requires Normal(rooted, parts) && forall i :: 0 <= i < |components| ==> NoSlash(components[i])
    ensures Normal(rooted, Walk(rooted, parts, components))
    decreases |components|
  {
    if components != [] {
      PushNormal(rooted, parts, components[0]);
      WalkNormal(rooted, Push(rooted, parts, components[0]), components[1..]);
    }
  }

  lemma PartsNormal(path: string)
    ensures Normal(Rooted(path), Parts(path))
  {
    SplitNoSlash(path);
    WalkNormal(Rooted(path), [], Split(path));
  }

  lemma {:induction false} WalkOn(rooted: bool, parts: seq<string>, first: seq<string>, second: seq<string>)
    ensures Walk(rooted, parts, first + second) == Walk(rooted, Walk(rooted, parts, first), second)
    decreases |first|
  {
    if first == [] {
      assert first + second == second;
    } else {
      assert (first + second)[1..] == first[1..] + second;
      WalkOn(rooted, Push(rooted, parts, first[0]), first[1..], second);
    }
  }

  /** Normal components are all kept. */
  lemma {:induction false} WalkKeeps(rooted: bool, before: seq<string>, after: seq<string>)
    requires Normal(rooted, before + after)
    ensures Walk(rooted, before, after) == before + after
    decreases |after|
  {
    if after == [] {
      assert before + after == before;
    } else {
      var all := before + after;
      KeptByPush(rooted, before, after[0], all);
      assert (before + [after[0]]) + after[1..] == all;
      WalkKeeps(rooted, before + [after[0]], after[1..]);
    }
  }

  lemma KeptByPush(rooted: bool, before: seq<string>, part: string, all: seq<string>)
    requires Normal(rooted, all) && |before| < |all| && before == all[..|before|] && part == all[|before|]
    ensures Push(rooted, before, part) == before + [part]
  {
    assert Component(all[|before|]);
    assert before != [] ==> before[|before| - 1] == all[|before| - 1];
  }

  // ------------------------------------------------------- the text of a path

  lemma {:induction false} JoinStarts(parts: seq<string>)
    requires forall i :: 0 <= i < |parts| ==> Component(parts[i])
    ensures parts != [] ==> Join(parts) != "" && Join(parts)[0] != '/' && Join(parts)[|Join(parts)| - 1] != '/'
  {
    if |parts| > 1 {
      assert Component(parts[0]);
      JoinStarts(parts[1..]);
    } else if |parts| == 1 {
      assert Component(parts[0]);
    }
  }

  /** A rendered path is of the kind it was rendered as, and reads back as the same components. */
  lemma RenderReads(rooted: bool, parts: seq<string>)
    requires Normal(rooted, parts)
    ensures Render(rooted, parts) != "" && Rooted(Render(rooted, parts)) == rooted
    ensures Parts(Render(rooted, parts)) == parts
  {
    JoinStarts(parts);
    WalkJoined(rooted, parts);
    if rooted {
      SplitBetween("", Join(parts));
      assert "" + ("/" + Join(parts)) == "/" + Join(parts);
      WalkOn(true, [], Split(""), Split(Join(parts)));
      OneStep(true, "");
    } else if parts == [] {
      SplitPlain(".");
      OneStep(false, ".");
    }
  }

  lemma OneStep(rooted: bool, part: string)
    ensures Walk(rooted, [], [part]) == Push(rooted, [], part)
  {
    assert [part][1..] == [];
  }

  lemma WalkJoined(rooted: bool, parts: seq<string>)
    requires Normal(rooted, parts)
    ensures Walk(rooted, [], Split(Join(parts))) == parts
  {
    if parts == [] {
      OneStep(rooted, "");
    } else {
      SplitJoin(parts);
      assert [] + parts == parts;
      WalkKeeps(rooted, [], parts);
    }
  }

  // ----------------------------------------------------------------- the laws

  /** The cleaned text: a normal form, of the same kind, with no `/` at its end but the root's. */
  lemma CleanIsNormal(path: string)
    ensures Clean(path) != "" && Rooted(Clean(path)) == Rooted(path)
    ensures Parts(Clean(path)) == Parts(path) && Normal(Rooted(path), Parts(path))
    ensures Clean(path)[|Clean(path)| - 1] == '/' <==> Clean(path) == "/"
  {
    PartsNormal(path);
    RenderReads(Rooted(path), Parts(path));
    JoinStarts(Parts(path));
  }

  lemma CleanIdempotent(path: string)
    ensures Clean(Clean(path)) == Clean(path)
  {
    CleanIsNormal(path);
  }

  function Under(p: string, q: string): string { p + ("/" + q) }

  lemma UnderRooted(p: string, q: string)
    ensures Rooted(Under(p, q)) == (p == "" || Rooted(p))
    ensures p != "" ==> Parts(Under(p, q)) == Walk(Rooted(p), Parts(p), Split(q))
  {
    SplitBetween(p, q);
    if p != "" {
      WalkOn(Rooted(p), [], Split(p), Split(q));
    }
  }

  /** A path may be cleaned before it is joined to another, exactly when it is not empty. */
  lemma CleanThenJoin(p: string, q: string)
    ensures Clean(Under(Clean(p), q)) == Clean(Under(p, q)) <==> p != ""
  {
    CleanIsNormal(p);
    UnderRooted(p, q);
    UnderRooted(Clean(p), q);
    if p == "" {
      CleanIsNormal(Under(p, q));
      CleanIsNormal(Under(Clean(p), q));
    }
  }

  /** What the components mean: `.` and the empty one stay, a name is undone by `..`, the root is its own parent. */
  lemma ComponentLaws(p: string, name: string)
    requires p != "" && Component(name) && name != ".."
    ensures Clean(Under(p, "")) == Clean(p) && Clean(Under(p, ".")) == Clean(p)
    ensures Clean(Under(Under(p, name), "..")) == Clean(p)
    ensures Clean("/..") == "/"
  {
    UnderRooted(p, "");
    UnderRooted(p, ".");
    SplitPlain(".");
    WalkOne(Rooted(p), Parts(p), "");
    WalkOne(Rooted(p), Parts(p), ".");
    Undone(p, name);
    AboveRoot();
  }

  lemma WalkOne(rooted: bool, parts: seq<string>, part: string)
    ensures Walk(rooted, parts, [part]) == Push(rooted, parts, part)
  {
    assert [part][1..] == [];
  }

  lemma Undone(p: string, name: string)
    requires p != "" && Component(name) && name != ".."
    ensures Clean(Under(Under(p, name), "..")) == Clean(p)
  {
    UnderRooted(p, name);
    UnderRooted(Under(p, name), "..");
    SplitPlain(name);
    SplitPlain("..");
    WalkOne(Rooted(p), Parts(p), name);
    WalkOne(Rooted(p), Parts(p) + [name], "..");
    assert (Parts(p) + [name])[..|Parts(p)|] == Parts(p);
  }

  lemma AboveRoot()
    ensures Clean("/..") == "/"
  {
    assert "" + ("/" + "..") == "/..";
    SplitBetween("", "..");
    SplitPlain("..");
    WalkOn(true, [], [""], [".."]);
    WalkOne(true, [], "");
    WalkOne(true, [], "..");
  }

  /** `clean`, with its stack. */
  method CleanPath(path: string) returns (cleaned: string)
    ensures cleaned == Clean(path)
  {
    var rooted := Rooted(path);
    var components := Split(path);
    var parts: seq<string> := [];
    for i := 0 to |components|
      invariant Walk(rooted, parts, components[i..]) == Parts(path)
    {
      var part := components[i];
      assert components[i..][1..] == components[i + 1..];
      if part == "" || part == "." {
      } else if part == ".." {
        if parts != [] && parts[|parts| - 1] != ".." {
          parts := parts[..|parts| - 1];
        } else if !rooted {
          parts := parts + [".."];
        }
      } else {
        parts := parts + [part];
      }
    }
    var joined := Join(parts);
    cleaned := if rooted then "/" + joined else if joined == "" then "." else joined;
  }

  // --------------------------------------------------------------- WORKDIR

  /** `join_workdir`. */
  function JoinWorkdir(current: string, path: string): string {
    if Rooted(path) then Clean(path) else Clean(Under("/" + current, path))
  }

  predicate AbsoluteNormal(dir: string) {
    Rooted(dir) && Clean(dir) == dir && Normal(true, Parts(dir))
  }

  /** The working directory after a run of `WORKDIR` instructions. */
  function Workdir(start: string, paths: seq<string>): string {
    if paths == [] then start else JoinWorkdir(Workdir(start, paths[..|paths| - 1]), paths[|paths| - 1])
  }

  /** Whatever the base image said, any `WORKDIR` leaves an absolute normal path. */
  lemma WorkdirIsAbsolute(start: string, paths: seq<string>)
    requires paths != []
    ensures AbsoluteNormal(Workdir(start, paths))
  {
    JoinIsAbsolute(Workdir(start, paths[..|paths| - 1]), paths[|paths| - 1]);
  }

  lemma JoinIsAbsolute(current: string, path: string)
    ensures AbsoluteNormal(JoinWorkdir(current, path))
  {
    var from := if Rooted(path) then path else Under("/" + current, path);
    CleanIsNormal(from);
    CleanIdempotent(from);
  }

  /** A slash more in front of a rooted path changes nothing. */
  lemma SlashBefore(p: string)
    requires Rooted(p)
    ensures Clean("/" + p) == Clean(p)
  {
    assert "/" + p == "" + ("/" + p);
    SplitBetween("", p);
    WalkOn(true, [], [""], Split(p));
    WalkOne(true, [], "");
  }

  /** Two `WORKDIR`s are one, along the joined path. */
  lemma WorkdirComposes(current: string, p: string, q: string)
    requires p != "" && !Rooted(q)
    ensures JoinWorkdir(JoinWorkdir(current, p), q) == JoinWorkdir(current, Under(p, q))
  {
    if Rooted(p) {
      JoinAfterClean(p, q);
    } else {
      JoinAfterClean(Under("/" + current, p), q);
      UnderUnder("/" + current, p, q);
    }
    assert Rooted(Under(p, q)) == Rooted(p);
  }

  lemma UnderUnder(a: string, p: string, q: string)
    ensures Under(Under(a, p), q) == Under(a, Under(p, q))
  {
  }

  lemma JoinAfterClean(from: string, q: string)
    requires Rooted(from) && !Rooted(q)
    ensures JoinWorkdir(Clean(from), q) == Clean(Under(from, q))
  {
    CleanIsNormal(from);
    JoinRooted(Clean(from), q);
    CleanThenJoin(from, q);
  }

  lemma JoinRooted(dir: string, q: string)
    requires Rooted(dir) && !Rooted(q)
    ensures JoinWorkdir(dir, q) == Clean(Under(dir, q))
  {
    SlashBefore(Under(dir, q));
    SlashUnder(dir, q);
  }

  lemma SlashUnder(dir: string, q: string)
    ensures Under("/" + dir, q) == "/" + Under(dir, q)
  {
  }

  /** The part of an image's config that `WORKDIR` changes. */
  class ImageConfig {
    /** `WorkingDir`, if the config has one. */
    var workingDir: Option<string>

    /** `WorkingDir`, else `/`. */
    function Current(): (dir: string)
      reads this
    {
      if workingDir.None? || workingDir.value == "" then "/" else workingDir.value
    }

    constructor (base: Option<string>)
      ensures workingDir == base
    {
      workingDir := base;
    }

    method ApplyWorkdir(path: string)
      modifies this
      ensures Current() == JoinWorkdir(old(Current()), path) && AbsoluteNormal(Current())
    {
      JoinIsAbsolute(Current(), path);
      var dir;
      if Rooted(path) {
        dir := CleanPath(path);
      } else {
        dir := CleanPath(Under("/" + Current(), path));
      }
      workingDir := Some(dir);
    }
  }
}
