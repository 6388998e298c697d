/**
 * `getAllFiles`: the depth-first walk of the image directory that lists
 * every file whose lower-cased extension is accepted, skipping any
 * directory named `.next`.
 */
module Scanner {
  import opened Types
  import opened PathNames

  /**
   * An entry of a directory listing, as `readdir` with file types reports
   * it. Anything that is not a directory (a regular file, a symbolic link,
   * a socket) is a `File`; a directory whose own listing fails is not
   * `readable`.
   */
  datatype Node =
    | File(name: string)
    | Dir(name: string, readable: bool, children: seq<Node>)

  /** The directory name the walk never enters. */
  const Ignored := ".next"

  /**
   * What `getAllFiles(dir)` resolves to once `dir` has been listed as
   * `entries`: the paths found under the entries, in listing order, or
   * `None` when the listing of some directory it enters fails (the
   * promise rejects).
   */
  function Scan(dir: Path, entries: seq<Node>, extensions: seq<string>): Option<seq<Path>>
    decreases entries, 1
  {
    if entries == [] then Some([])
    else Both(Scan(dir, entries[..|entries| - 1], extensions), ScanEntry(dir, entries[|entries| - 1], extensions))
  }

  /**
   * What one pass of the loop adds for the entry `item` of `dir`: an
   * accepted file's path, nothing for another file or for `.next`, and a
   * directory's own walk.
   */
  function ScanEntry(dir: Path, item: Node, extensions: seq<string>): Option<seq<Path>>
    decreases item, 0
  {
    match item
    case File(name) =>
      if NameAccepted(name, extensions) then Some([dir + [name]]) else Some([])
    case Dir(name, readable, children) =>
      if name == Ignored then Some([])
      else if !readable then None
      else Scan(dir + [name], children, extensions)
  }

  /** Both walks resolve, and their paths follow one another; otherwise the promise rejects. */
  function Both(x: Option<seq<Path>>, y: Option<seq<Path>>): Option<seq<Path>>
  {
    if x.Some? && y.Some? then Some(x.value + y.value) else None
  }

  /** `getAllFiles(dir)` on a directory listed as `entries`, or whose listing fails. */
  function ScanDir(dir: Path, readable: bool, entries: seq<Node>, extensions: seq<string>): Option<seq<Path>>
  {
    if readable then Scan(dir, entries, extensions) else None
  }

  /** The `getAllFiles` function: a loop over the listing, recursing into directories. */
  method GetAllFiles(dir: Path, readable: bool, entries: seq<Node>, extensions: seq<string>)
    returns (found: Option<seq<Path>>)
    ensures found == ScanDir(dir, readable, entries, extensions)
    decreases entries
  {
    if !readable {
      return None;
    }
    var results: seq<Path> := [];
    var t := 0;
    while t < |entries|
      invariant 0 <= t <= |entries|
      invariant Scan(dir, entries[..t], extensions) == Some(results)
    {
      assert entries[..t + 1][..t] == entries[..t];
      assert results + [] == results;
      var item := entries[t];
      var fullPath := dir + [item.name];
      if item.Dir? {
        if item.name != Ignored {
          var sub := GetAllFiles(fullPath, item.readable, item.children, extensions);
          if sub.None? {
            ScanFailureSticks(dir, entries, t + 1, extensions);
            return None;
          }
          results := results + sub.value;
        }
      } else if NameAccepted(item.name, extensions) {
        results := results + [fullPath];
      }
      t := t + 1;
    }
    assert entries[..t] == entries;
    return Some(results);
  }

  /** Once the walk of a prefix of the listing has failed, the walk of the whole listing fails. */
  lemma {:induction false} ScanFailureSticks(dir: Path, entries: seq<Node>, t: nat, extensions: seq<string>)
    requires t <= |entries| && Scan(dir, entries[..t], extensions).None?
    ensures Scan(dir, entries, extensions).None?
    decreases |entries| - t
  {
    if t < |entries| {
      assert entries[..t + 1][..t] == entries[..t];
      ScanFailureSticks(dir, entries, t + 1, extensions);
    } else {
      assert entries[..t] == entries;
    }
  }

  /**
   * `rel` leads from a listing to a file the walk keeps: through
   * directories not named `.next`, to a file whose extension is accepted.
   */
  predicate Finds(entries: seq<Node>, rel: seq<string>, extensions: seq<string>)
    decreases entries
  {
    exists i :: 0 <= i < |entries| && FindsVia(entries[i], rel, extensions)
  }

  /** `rel` leads from the single entry `item` to a file the walk keeps. */
  predicate FindsVia(item: Node, rel: seq<string>, extensions: seq<string>)
    decreases item
  {
    && |rel| >= 1
    && rel[0] == item.name
    && match item
       case File(name) => |rel| == 1 && NameAccepted(name, extensions)
       case Dir(name, _, children) => |rel| > 1 && name != Ignored && Finds(children, rel[1..], extensions)
  }

  /** The walk enters some directory, not named `.next`, whose listing fails. */
  predicate Blocked(entries: seq<Node>)
    decreases entries
  {
    exists i :: 0 <= i < |entries| && BlockedAt(entries[i])
  }

  predicate BlockedAt(item: Node)
    decreases item
  {
    item.Dir? && item.name != Ignored && (!item.readable || Blocked(item.children))
  }

  /** The walk rejects exactly when it reaches a directory it cannot list. */
  lemma {:induction false} ScanFailsExactlyWhenBlocked(dir: Path, entries: seq<Node>, extensions: seq<string>)
    ensures Scan(dir, entries, extensions).None? <==> Blocked(entries)
    decreases entries
  {
    if entries != [] {
      var front := entries[..|entries| - 1];
      var item := entries[|entries| - 1];
      ScanFailsExactlyWhenBlocked(dir, front, extensions);
      if item.Dir? && item.name != Ignored && item.readable {
        ScanFailsExactlyWhenBlocked(dir + [item.name], item.children, extensions);
      }
      BlockedSplit(front, item);
    }
  }

  /** A listing is blocked when its front is or its last entry is. */
  lemma BlockedSplit(front: seq<Node>, item: Node)
    ensures Blocked(front + [item]) <==> Blocked(front) || BlockedAt(item)
  {
    var entries := front + [item];
    if Blocked(front) {
      var i :| 0 <= i < |front| && BlockedAt(front[i]);
      assert entries[i] == front[i];
    }
    if BlockedAt(item) {
      assert entries[|front|] == item;
    }
    if Blocked(entries) {
      var i :| 0 <= i < |entries| && BlockedAt(entries[i]);
      if i < |front| {
        assert front[i] == entries[i];
      }
    }
  }

  /** A listing finds `rel` when its front does or its last entry does. */
  lemma FindsSplit(front: seq<Node>, item: Node, rel: seq<string>, extensions: seq<string>)
    ensures Finds(front + [item], rel, extensions) <==> Finds(front, rel, extensions) || FindsVia(item, rel, extensions)
  {
    var entries := front + [item];
    if Finds(front, rel, extensions) {
      var i :| 0 <= i < |front| && FindsVia(front[i], rel, extensions);
      assert entries[i] == front[i];
    }
    if FindsVia(item, rel, extensions) {
      assert entries[|front|] == item;
    }
    if Finds(entries, rel, extensions) {
      var i :| 0 <= i < |entries| && FindsVia(entries[i], rel, extensions);
      if i < |front| {
        assert front[i] == entries[i];
      }
    }
  }

  /** `p` names something strictly inside `dir`. */
  predicate Inside(dir: Path, p: Path)
  {
    |dir| < |p| && p[..|dir|] == dir
  }

  /**
   * The walk is sound and complete: when it resolves, it lists exactly the
   * paths `dir + rel` for which `rel` leads to a kept file.
   */
  lemma {:induction false} ScanFindsExactly(dir: Path, entries: seq<Node>, extensions: seq<string>)
    requires Scan(dir, entries, extensions).Some?
    ensures forall p :: p in Scan(dir, entries, extensions).value <==>
                          Inside(dir, p) && Finds(entries, p[|dir|..], extensions)
    decreases entries, 1
  {
    if entries != [] {
      var front := entries[..|entries| - 1];
      var item := entries[|entries| - 1];
      assert entries == front + [item];
      ScanFindsExactly(dir, front, extensions);
      assert Scan(dir, entries, extensions).value == Scan(dir, front, extensions).value + ScanEntry(dir, item, extensions).value;
      forall p
        ensures p in Scan(dir, entries, extensions).value <==> Inside(dir, p) && Finds(entries, p[|dir|..], extensions)
      {
        ItemFindsExactly(dir, item, p, extensions);
        if Inside(dir, p) {
          FindsSplit(front, item, p[|dir|..], extensions);
        }
      }
    }
  }

  /** What one entry contributes: exactly the paths it leads to. */
  lemma {:induction false} ItemFindsExactly(dir: Path, item: Node, p: Path, extensions: seq<string>)
    requires ScanEntry(dir, item, extensions).Some?
    ensures p in ScanEntry(dir, item, extensions).value <==> Inside(dir, p) && FindsVia(item, p[|dir|..], extensions)
    decreases item, 0
  {
    match item
    case File(name) =>
      if Inside(dir, p) && FindsVia(item, p[|dir|..], extensions) {
        assert p[|dir|..] == [name];
        assert p == p[..|dir|] + p[|dir|..];
      }
      if p in ScanEntry(dir, item, extensions).value {
        assert p == dir + [name];
        assert p[..|dir|] == dir && p[|dir|..] == [name];
      }
    case Dir(name, readable, children) =>
      if name != Ignored {
        var sub := dir + [name];
        ScanFindsExactly(sub, children, extensions);
        if Inside(dir, p) && |p[|dir|..]| > 1 && p[|dir|..][0] == name {
          assert p[..|sub|] == sub by {
            assert p[..|sub|] == p[..|dir|] + [p[|dir|]];
          }
          assert p[|sub|..] == p[|dir|..][1..];
        }
        if p in Scan(sub, children, extensions).value {
          assert p[..|dir|] == sub[..|dir|];
          assert p[|dir|..][0] == name;
          assert p[|dir|..][1..] == p[|sub|..];
        }
      }
  }

  /**
   * Depth-first, in listing order: the walk of a listing split in two is
   * the walk of the first part followed by that of the second, so the
   * paths under one entry come together and before those of later entries.
   */
  lemma {:induction false} ScanConcat(dir: Path, a: seq<Node>, b: seq<Node>, extensions: seq<string>)
    ensures Scan(dir, a + b, extensions) == Both(Scan(dir, a, extensions), Scan(dir, b, extensions))
    decreases |b|
  {
    if b == [] {
      assert a + b == a;
      if Scan(dir, a, extensions).Some? {
        assert Scan(dir, a, extensions).value + [] == Scan(dir, a, extensions).value;
      }
    } else {
      var front := b[..|b| - 1];
      assert (a + b)[..|a + b| - 1] == a + front;
      assert (a + b)[|a + b| - 1] == b[|b| - 1];
      ScanConcat(dir, a, front, extensions);
      BothAssociates(Scan(dir, a, extensions), Scan(dir, front, extensions), ScanEntry(dir, b[|b| - 1], extensions));
    }
  }

  lemma BothAssociates(x: Option<seq<Path>>, y: Option<seq<Path>>, z: Option<seq<Path>>)
    ensures Both(Both(x, y), z) == Both(x, Both(y, z))
  {
    if x.Some? && y.Some? && z.Some? {
      assert x.value + y.value + z.value == x.value + (y.value + z.value);
    }
  }

  /** Every path the walk lists is a file the worker's filter accepts, reached without entering `.next`. */
  lemma ScannedPathsAreKept(dir: Path, entries: seq<Node>, extensions: seq<string>)
    requires Scan(dir, entries, extensions).Some?
    ensures forall p :: p in Scan(dir, entries, extensions).value ==>
              && Inside(dir, p)
              && PathAccepted(p, extensions)
              && (forall t :: |dir| <= t < |p| - 1 ==> p[t] != Ignored)
  {
    ScanFindsExactly(dir, entries, extensions);
    forall p | p in Scan(dir, entries, extensions).value
      ensures PathAccepted(p, extensions) && (forall t :: |dir| <= t < |p| - 1 ==> p[t] != Ignored)
    {
      FoundPathKept(dir, entries, p, extensions);
    }
  }

  /** ScannedPathsAreKept for one path the walk finds. */
  lemma FoundPathKept(dir: Path, entries: seq<Node>, p: Path, extensions: seq<string>)
    requires Inside(dir, p) && Finds(entries, p[|dir|..], extensions)
    ensures PathAccepted(p, extensions)
    ensures forall t :: |dir| <= t < |p| - 1 ==> p[t] != Ignored
  {
    var rel := p[|dir|..];
    FindsShape(entries, rel, extensions);
    assert p[|p| - 1] == rel[|rel| - 1];
    forall t | |dir| <= t < |p| - 1
      ensures p[t] != Ignored
    {
      assert p[t] == rel[t - |dir|];
    }
  }

  /** A path the walk keeps ends in an accepted name and passes through no `.next`. */
  lemma {:induction false} FindsShape(entries: seq<Node>, rel: seq<string>, extensions: seq<string>)
    requires Finds(entries, rel, extensions)
    ensures |rel| >= 1 && NameAccepted(rel[|rel| - 1], extensions)
    ensures forall t :: 0 <= t < |rel| - 1 ==> rel[t] != Ignored
    decreases entries
  {
    var i :| 0 <= i < |entries| && FindsVia(entries[i], rel, extensions);
    match entries[i]
    case File(name) =>
    case Dir(name, _, children) =>
      FindsShape(children, rel[1..], extensions);
      forall t | 0 < t < |rel| - 1
        ensures rel[t] != Ignored
      {
        assert rel[t] == rel[1..][t - 1];
      }
  }

  /**
   * A directory holding `a.png`, a `.next` directory with `b.png`, and
   * `c.txt`, walked with `[".png"]`, yields `a.png` alone.
   */
  lemma PrunedScanExample()
    ensures Scan([], [File("a.png"), Dir(".next", true, [File("b.png")]), File("c.txt")], [".png"]) == Some([["a.png"]])
  {
    var entries := [File("a.png"), Dir(".next", true, [File("b.png")]), File("c.txt")];
    ExampleNames();
    assert [] + ["a.png"] == ["a.png"];
    assert ScanEntry([], entries[0], [".png"]) == Some([["a.png"]]);
    assert ScanEntry([], entries[1], [".png"]) == Some([]);
    assert ScanEntry([], entries[2], [".png"]) == Some([]);
    assert entries[..1][..0] == [] && entries[..1][0] == entries[0];
    assert [] + [["a.png"]] == [["a.png"]] && [["a.png"]] + [] == [["a.png"]];
    assert Scan([], entries[..1], [".png"]) == Some([["a.png"]]);
    assert entries[..2][..1] == entries[..1] && entries[..2][1] == entries[1];
    assert Scan([], entries[..2], [".png"]) == Some([["a.png"]]);
    assert entries[..2] == entries[..|entries| - 1];
  }

  /** `a.png` passes the filter `[".png"]` and `c.txt` does not. */
  lemma ExampleNames()
    ensures NameAccepted("a.png", [".png"]) && !NameAccepted("c.txt", [".png"])
  {
    LastDotAt("a.png", 1);
    LastDotAt("c.txt", 1);
    assert ExtOfName("a.png") == ".png" by { assert "a.png"[1..] == ".png"; }
    assert ExtOfName("c.txt") == ".txt" by { assert "c.txt"[1..] == ".txt"; }
    assert Lower(".png") == ".png";
    assert Lower(".txt") == ".txt";
  }

  /** A name whose only '.' is at position d has its last dot there. */
  lemma LastDotAt(name: string, d: nat)
    requires d < |name| && name[d] == '.' && forall j :: 0 <= j < |name| && j != d ==> name[j] != '.'
    ensures LastDot(name) == d
  {
  }
}
