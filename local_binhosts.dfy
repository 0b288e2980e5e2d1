/**
  The script that picks local binhosts for a board: every other board in
  the build root whose compatibility summary (architecture and compiler
  flags) equals the target's contributes its package directory to a
  `LOCAL_BINHOST` line.

  The file-system glob and the portage query behind each board's summary
  are parameters here.
*/
module LocalBinhosts {
  import opened Wrappers
  import opened Strings

  const PortageqPrefix := "/usr/local/bin/portageq-"

  /** A path the wrapper glob can return: the prefix and a file name. */
  predicate IsWrapperPath(path: string) {
    StartsWith(path, PortageqPrefix) && '/' !in path[|PortageqPrefix|..]
  }

  /** `FindCandidateBoards`: the wrapper paths in sorted order with the prefix removed. */
  function FindCandidateBoards(paths: set<string>): (boards: seq<string>)
    ensures |boards| == |paths|
  {
    var sorted := SortedSet(paths);
    seq(|sorted|, i requires 0 <= i < |sorted| => ReplaceAll(sorted[i], PortageqPrefix, ""))
  }

  /** Removing the prefix from a wrapper path leaves its file name, since that name holds no `/`. */
  lemma StripPrefix(name: string)
    requires '/' !in name
    ensures ReplaceAll(PortageqPrefix + name, PortageqPrefix, "") == name
  {
    var path := PortageqPrefix + name;
    assert path[..|PortageqPrefix|] == PortageqPrefix;
    assert path[|PortageqPrefix|..] == name;
    forall i | 0 <= i <= |name|
      ensures !StartsWith(name[i..], PortageqPrefix)
    {
      if i < |name| {
        assert name[i..][0] == name[i] && name[i] in name;
      }
    }
    ReplaceAllAbsent(name, PortageqPrefix, "");
  }

  lemma {:induction false} AtMostCommonPrefix(p: string, a: string, b: string)
    ensures AtMost(p + a, p + b) <==> AtMost(a, b)
    decreases |p|
  {
    if |p| > 0 {
      assert (p + a)[0] == (p + b)[0];
      assert (p + a)[1..] == p[1..] + a && (p + b)[1..] == p[1..] + b;
      AtMostCommonPrefix(p[1..], a, b);
    } else {
      assert p + a == a && p + b == b;
    }
  }

  /** Each sorted wrapper path is the prefix followed by the candidate board at its position. */
  lemma CandidateBoardsUnderPrefix(paths: set<string>)
    requires forall p :: p in paths ==> IsWrapperPath(p)
    ensures var sorted := SortedSet(paths);
      var boards := FindCandidateBoards(paths);
      |boards| == |sorted| && forall i :: 0 <= i < |sorted| ==> sorted[i] == PortageqPrefix + boards[i]
  {
    var sorted := SortedSet(paths);
    var boards := FindCandidateBoards(paths);
    forall i | 0 <= i < |sorted|
      ensures sorted[i] == PortageqPrefix + boards[i]
    {
      assert sorted[i] in sorted;
      WrapperPathStrips(sorted[i]);
    }
  }

  /** A wrapper path is the prefix followed by what removing the prefix leaves. */
  lemma WrapperPathStrips(path: string)
    requires IsWrapperPath(path)
    ensures path == PortageqPrefix + ReplaceAll(path, PortageqPrefix, "")
  {
    var name := path[|PortageqPrefix|..];
    assert path == PortageqPrefix + name;
    StripPrefix(name);
  }

  /**
    The candidate boards are exactly the wrappers' file names, in strictly
    increasing order.
  */
  lemma CandidateBoardsAreSortedNames(paths: set<string>)
    requires forall p :: p in paths ==> IsWrapperPath(p)
    ensures var boards := FindCandidateBoards(paths);
      && (forall b :: b in boards <==> PortageqPrefix + b in paths)
      && StrictlySorted(boards)
  {
    var sorted := SortedSet(paths);
    var boards := FindCandidateBoards(paths);
    CandidateBoardsUnderPrefix(paths);
    forall b | b in boards
      ensures PortageqPrefix + b in paths
    {
      var i :| 0 <= i < |boards| && boards[i] == b;
      assert sorted[i] in sorted;
    }
    forall b | PortageqPrefix + b in paths
      ensures b in boards
    {
      var i :| 0 <= i < |sorted| && sorted[i] == PortageqPrefix + b;
      assert PortageqPrefix + boards[i] == PortageqPrefix + b;
      assert boards[i] == (PortageqPrefix + boards[i])[|PortageqPrefix|..];
    }
    CandidateBoardsSorted(paths);
  }

  lemma CandidateBoardsSorted(paths: set<string>)
    requires forall p :: p in paths ==> IsWrapperPath(p)
    ensures StrictlySorted(FindCandidateBoards(paths))
  {
    var boards := FindCandidateBoards(paths);
    CandidateBoardsUnderPrefix(paths);
    forall i, j | 0 <= i < j < |boards|
      ensures AtMost(boards[i], boards[j]) && boards[i] != boards[j]
    {
      AtMostCommonPrefix(PortageqPrefix, boards[i], boards[j]);
    }
  }

  /** One binhost: the board's package directory under the build root, as a local file URL. */
  function BinhostEntry(buildRoot: string, board: string): string {
    "file://localhost" + PathJoinAll(buildRoot, [board, "packages"])
  }

  /** The binhosts of the given boards, in the given order. */
  function Entries(buildRoot: string, sorted: seq<string>): (entries: seq<string>)
    ensures |entries| == |sorted|
  {
    seq(|sorted|, i requires 0 <= i < |sorted| => BinhostEntry(buildRoot, sorted[i]))
  }

  /** `GenerateBinhostLine`: the boards' binhosts in sorted order, space-separated and quoted. */
  function GenerateBinhostLine(buildRoot: string, boards: set<string>): (line: string)
    ensures StartsWith(line, "LOCAL_BINHOST='") && EndsWith(line, "'")
  {
    var line := "LOCAL_BINHOST='" + Join(Entries(buildRoot, SortedSet(boards)), " ") + "'";
    assert line[..|"LOCAL_BINHOST='"|] == "LOCAL_BINHOST='";
    line
  }

  /** No compatible boards give an empty list. */
  lemma NoBoardsEmptyLine(buildRoot: string)
    ensures GenerateBinhostLine(buildRoot, {}) == "LOCAL_BINHOST=''"
  {
    var sorted := SortedSet({});
    assert |sorted| == 0;
  }

  /** Under a plain build root, a plain board's binhost is its `packages` directory. */
  lemma BinhostEntryShape(buildRoot: string, b: string)
    requires buildRoot != "" && !EndsWith(buildRoot, "/") && ' ' !in buildRoot
    requires b != "" && '/' !in b && ' ' !in b
    ensures BinhostEntry(buildRoot, b) == "file://localhost" + buildRoot + "/" + b + "/packages"
    ensures ' ' !in BinhostEntry(buildRoot, b)
  {
    BinhostEntryPath(buildRoot, b);
  }

  /** The entry's path is the root, the board and `packages`, joined by single slashes. */
  lemma BinhostEntryPath(buildRoot: string, b: string)
    requires buildRoot != "" && !EndsWith(buildRoot, "/")
    requires b != "" && '/' !in b
    ensures BinhostEntry(buildRoot, b) == "file://localhost" + buildRoot + "/" + b + "/packages"
  {
    var dir := buildRoot + "/" + b;
    PathJoinWithSlash(buildRoot, b);
    assert !EndsWith(dir, "/") by {
      assert dir[|dir| - 1..][0] == b[|b| - 1];
      assert b[|b| - 1] in b;
    }
    PathJoinWithSlash(dir, "packages");
    PathJoinAllTwo(buildRoot, b, "packages");
    assert dir + "/" + "packages" == buildRoot + "/" + b + "/packages" by {
      assert "/" + "packages" == "/packages";
    }
  }

  /** Joining a relative component onto a directory without a trailing slash inserts one slash. */
  lemma PathJoinWithSlash(dir: string, name: string)
    requires dir != "" && !EndsWith(dir, "/")
    requires name != "" && name[0] != '/'
    ensures PathJoin(dir, name) == dir + "/" + name
  {
    assert !StartsWith(name, "/") by {
      assert name[..1][0] == name[0];
    }
  }

  lemma PathJoinAllTwo(a: string, x: string, y: string)
    ensures PathJoinAll(a, [x, y]) == PathJoin(PathJoin(a, x), y)
  {
    assert [x, y][1..] == [y] && [y][1..] == [];
    calc {
      PathJoinAll(a, [x, y]);
      PathJoinAll(PathJoin(a, x), [y]);
      PathJoinAll(PathJoin(PathJoin(a, x), y), []);
    }
  }

  /** The quoted part of the line is the joined binhosts. */
  lemma BinhostLineInner(buildRoot: string, boards: set<string>)
    ensures var line := GenerateBinhostLine(buildRoot, boards);
      line[|"LOCAL_BINHOST='"|..|line| - 1] == Join(Entries(buildRoot, SortedSet(boards)), " ")
  {
    var inner := Join(Entries(buildRoot, SortedSet(boards)), " ");
    var line := "LOCAL_BINHOST='" + inner + "'";
    assert line[|"LOCAL_BINHOST='"|..|line| - 1] == inner;
  }

  /**
    With a plain build root and board names without `/` or spaces, the
    quoted list splits into one entry per board, in sorted order, each the
    board's package directory.
  */
  lemma BinhostLineEntries(buildRoot: string, boards: set<string>)
    requires buildRoot != "" && !EndsWith(buildRoot, "/") && ' ' !in buildRoot
    requires forall b :: b in boards ==> b != "" && '/' !in b && ' ' !in b
    requires |boards| > 0
    ensures var line := GenerateBinhostLine(buildRoot, boards);
      var entries := Split(line[|"LOCAL_BINHOST='"|..|line| - 1], ' ');
      var sorted := SortedSet(boards);
      && |entries| == |boards|
      && forall i :: 0 <= i < |boards| ==>
           entries[i] == "file://localhost" + buildRoot + "/" + sorted[i] + "/packages"
  {
    var sorted := SortedSet(boards);
    var entries := Entries(buildRoot, sorted);
    forall i | 0 <= i < |sorted|
      ensures entries[i] == "file://localhost" + buildRoot + "/" + sorted[i] + "/packages"
      ensures ' ' !in entries[i]
    {
      assert sorted[i] in sorted;
      BinhostEntryShape(buildRoot, sorted[i]);
    }
    BinhostLineInner(buildRoot, boards);
    SplitJoin(entries, ' ');
  }

  /** A set of board names that the script mutates through any alias. */
  class BoardSet {
    var boards: set<string>

    constructor()
      ensures boards == {}
    {
      boards := {};
    }

    method Add(board: string)
      modifies this
      ensures boards == old(boards) + {board}
    {
      boards := boards + {board};
    }
  }

  /** The boards, other than the target, that share the target's summary. */
  function CompatibleWith(candidates: seq<string>, target: string, summarize: string -> string): set<string> {
    set b | b in candidates && b != target && summarize(b) == summarize(target)
  }

  datatype Outcome =
    | MissingWrapper(message: string)
    | BinhostLine(lines: seq<string>)

  /**
    The script's `main` over the wrapper paths the glob found: the
    candidates are the wrappers' board names.
  */
  method GenerateLocalBinhosts(wrappers: set<string>, target: string, buildRoot: string, summarize: string -> string)
    returns (outcome: Outcome)
    ensures var candidates := FindCandidateBoards(wrappers);
      && (target !in candidates ==> outcome == MissingWrapper("Missing portageq wrapper for " + target))
      && (target in candidates ==> outcome == BinhostLine([
           "# Generated by cros_generate_local_binhosts.",
           GenerateBinhostLine(buildRoot, CompatibleWith(candidates, target, summarize))]))
  {
    outcome := GenerateFromCandidates(FindCandidateBoards(wrappers), target, buildRoot, summarize);
  }

  /**
    The script's grouping. Boards are bucketed by their summary; the target
    keeps a reference to its bucket, which boards enumerated after it still
    join. A target with no wrapper ends with an error and status 1.
  */
  method GenerateFromCandidates(candidates: seq<string>, target: string, buildRoot: string, summarize: string -> string)
    returns (outcome: Outcome)
    ensures target !in candidates ==> outcome == MissingWrapper("Missing portageq wrapper for " + target)
    ensures target in candidates ==> outcome == BinhostLine([
      "# Generated by cros_generate_local_binhosts.",
      GenerateBinhostLine(buildRoot, CompatibleWith(candidates, target, summarize))])
  {
    var byCompatibility: map<string, BoardSet> := map[];
    var compatibleBoards: BoardSet? := null;
    for i := 0 to |candidates|
      invariant forall k :: k in byCompatibility ==>
        byCompatibility[k].boards == set b | b in candidates[..i] && b != target && summarize(b) == k
      invariant forall k :: k in byCompatibility ==> fresh(byCompatibility[k])
      invariant forall k, k' :: k in byCompatibility && k' in byCompatibility && k != k' ==>
        byCompatibility[k] != byCompatibility[k']
      invariant compatibleBoards == null <==> target !in candidates[..i]
      invariant compatibleBoards != null ==>
        summarize(target) in byCompatibility && compatibleBoards == byCompatibility[summarize(target)]
      invariant forall k :: k !in byCompatibility ==>
        forall b :: b in candidates[..i] && b != target ==> summarize(b) != k
    {
      var otherBoard := candidates[i];
      var compatId := summarize(otherBoard);
      assert candidates[..i + 1] == candidates[..i] + [otherBoard];
      if compatId !in byCompatibility {
        var bucket := new BoardSet();
        byCompatibility := byCompatibility[compatId := bucket];
      }
      if otherBoard == target {
        compatibleBoards := byCompatibility[compatId];
      } else {
        byCompatibility[compatId].Add(otherBoard);
      }
    }
    assert candidates[..|candidates|] == candidates;
    if compatibleBoards == null {
      return MissingWrapper("Missing portageq wrapper for " + target);
    }
    assert compatibleBoards.boards == CompatibleWith(candidates, target, summarize);
    outcome := BinhostLine([
      "# Generated by cros_generate_local_binhosts.",
      GenerateBinhostLine(buildRoot, compatibleBoards.boards)]);
  }

  /** The target is never among its own binhosts. */
  lemma TargetNotCompatibleWithItself(candidates: seq<string>, target: string, summarize: string -> string)
    ensures target !in CompatibleWith(candidates, target, summarize)
    ensures forall b :: b in candidates && b != target && summarize(b) == summarize(target) ==>
      b in CompatibleWith(candidates, target, summarize)
  {
  }
}
