/**
  Join, Split and IsValidPath of framework/utils/constant.
 */
module Strings {
  import opened Wrappers

  /** `d` occurs in `s` at position i. */
  predicate OccursAt(s: string, d: string, i: nat) {
    i + |d| <= |s| && forall k | 0 <= k < |d| :: s[i + k] == d[k]
  }

  /** std::string::find: the first occurrence at or after `pos`, as FindSpec states. */
  function Find(s: string, d: string, pos: nat): (r: Option<nat>)
    ensures r.Some? ==> pos <= r.value && r.value + |d| <= |s|
    decreases |s| - pos
  {
    if pos + |d| > |s| then None
    else if OccursAt(s, d, pos) then Some(pos)
    else Find(s, d, pos + 1)
  }

  lemma {:induction false} FindSpec(s: string, d: string, pos: nat)
    ensures var r := Find(s, d, pos);
      && (r.Some? ==> OccursAt(s, d, r.value))
      && forall i: nat | pos <= i && (r.Some? ==> i < r.value) :: !OccursAt(s, d, i)
    decreases |s| - pos
  {
    if pos + |d| <= |s| && !OccursAt(s, d, pos) {
      FindSpec(s, d, pos + 1);
    }
  }

  lemma FindFirst(s: string, d: string, pos: nat, i: nat)
    requires pos <= i && OccursAt(s, d, i)
    requires forall j: nat | pos <= j < i :: !OccursAt(s, d, j)
    ensures Find(s, d, pos) == Some(i)
  {
    FindSpec(s, d, pos);
  }

  lemma FindNone(s: string, d: string, pos: nat)
    requires forall j: nat | pos <= j :: !OccursAt(s, d, j)
    ensures Find(s, d, pos) == None
  {
    FindSpec(s, d, pos);
  }

  // ---- Join and Split ---------------------------------------------------------------------------

  function Join(prefix: string, separator: string, params: seq<string>): string {
    if params == [] then prefix
    else Join(prefix, separator, params[..|params| - 1]) + separator + params[|params| - 1]
  }

  method JoinLoop(prefix: string, separator: string, params: seq<string>) returns (result: string)
    ensures result == Join(prefix, separator, params)
  {
    result := prefix;
    for i := 0 to |params|
      invariant result == Join(prefix, separator, params[..i])
    {
      assert params[..i + 1][..i] == params[..i];
      result := result + separator + params[i];
    }
    assert params[..|params|] == params;
  }

  lemma Associates(a: string, b: string, c: string, d: string)
    ensures a + b + c + d == a + (b + c + d)
  {
  }

  lemma {:induction false} JoinFront(prefix: string, sep: string, params: seq<string>)
    requires params != []
    ensures Join(prefix, sep, params) == prefix + sep + Join(params[0], sep, params[1..])
  {
    var last := |params| - 1;
    if last == 0 {
      assert params[..0] == [] && params[1..] == [];
    } else {
      var inner := Join(params[0], sep, params[..last][1..]);
      JoinFront(prefix, sep, params[..last]);
      assert params[1..][..last - 1] == params[..last][1..];
      Associates(prefix + sep, inner, sep, params[last]);
    }
  }

  /** The pieces of `s` between occurrences of `delim`, without an empty last one. */
  function Pieces(s: string, delim: string): seq<string>
    requires delim != ""
    decreases |s|
  {
    if s == "" then []
    else match Find(s, delim, 0)
      case None => [s]
      case Some(found) => [s[..found]] + Pieces(s[found + |delim|..], delim)
  }

  function Split(s: string, delim: string): seq<string>
    requires delim != ""
  {
    if s == "" then [s] else Pieces(s, delim)
  }

  lemma {:induction false} FindShift(s: string, d: string, pos: nat, i: nat)
    requires pos + i <= |s|
    ensures Find(s, d, pos + i) == match Find(s[pos..], d, i) case None => None case Some(k) => Some(pos + k)
    decreases |s| - i
  {
    if pos + i + |d| <= |s| {
      OccursShift(s, d, pos, i);
      if !OccursAt(s, d, pos + i) && pos + i < |s| {
        FindShift(s, d, pos, i + 1);
      }
    }
  }

  lemma OccursShift(s: string, d: string, pos: nat, i: nat)
    requires pos + i + |d| <= |s|
    ensures OccursAt(s[pos..], d, i) <==> OccursAt(s, d, pos + i)
  {
  }

  lemma {:induction false} PiecesUnfold(s: string, delim: string, i: nat, rest: seq<string>)
    requires delim != "" && s != "" && Find(s, delim, 0) == Some(i) && rest == Pieces(s[i + |delim|..], delim)
    ensures Pieces(s, delim) == [s[..i]] + rest
  {
  }

  lemma DropDrop(s: string, a: nat, b: nat)
    requires a + b <= |s|
    ensures s[a..][b..] == s[a + b..]
  {
  }

  /** std::string::substr */
  function Substr(s: string, pos: nat, n: nat): string
    requires pos + n <= |s|
  {
    s[pos..][..n]
  }

  /** With an empty delimiter Split never leaves its loop. */
  method SplitLoop(s: string, delim: string) returns (res: seq<string>)
    requires delim != ""
    ensures res == Split(s, delim)
  {
    if s == "" {
      return [s];
    }
    res := [];
    var pos := 0;
    ghost var tail := s;
    while pos < |s|
      invariant pos <= |s| && tail == s[pos..] && res + Pieces(tail, delim) == Split(s, delim)
      decreases |s| - pos
    {
      var found := Find(s, delim, pos);
      FindShift(s, delim, pos, 0);
      if found.None? {
        res := res + [s[pos..]];
        return;
      }
      ghost var i := found.value - pos;
      PiecesUnfold(tail, delim, i, Pieces(tail[i + |delim|..], delim));
      DropDrop(s, pos, i + |delim|);
      Regroup(res, tail[..i], Pieces(tail[i + |delim|..], delim));
      res := res + [Substr(s, pos, found.value - pos)];
      pos := found.value + |delim|;
      tail := tail[i + |delim|..];
    }
  }

  lemma Regroup(a: seq<string>, x: string, b: seq<string>)
    ensures a + ([x] + b) == (a + [x]) + b
  {
  }

  /** No field contains the delimiter's first character. */
  predicate DelimiterFree(fields: seq<string>, delim: string)
    requires delim != ""
  {
    forall i | 0 <= i < |fields| :: delim[0] !in fields[i]
  }

  lemma FirstPiece(field: string, delim: string, rest: string)
    requires delim != "" && delim[0] !in field
    ensures Pieces(field + delim + rest, delim) == [field] + Pieces(rest, delim)
  {
    var s := field + delim + rest;
    assert OccursAt(s, delim, |field|);
    forall j: nat | j < |field| ensures !OccursAt(s, delim, j) {
      assert s[j + 0] == field[j];
    }
    FindFirst(s, delim, 0, |field|);
    assert s[..|field|] == field && s[|field| + |delim|..] == rest;
  }

  lemma OnlyPiece(field: string, delim: string)
    requires delim != "" && delim[0] !in field
    ensures Pieces(field, delim) == if field == "" then [] else [field]
  {
    forall j: nat ensures !OccursAt(field, delim, j) {
      assert j < |field| ==> field[j + 0] in field;
    }
    FindNone(field, delim, 0);
  }

  /** The fields without an empty last one. */
  function Trimmed(fields: seq<string>): seq<string>
    requires fields != []
  {
    if fields[|fields| - 1] == "" then fields[..|fields| - 1] else fields
  }

  lemma TrimmedCons(field: string, params: seq<string>)
    requires params != []
    ensures Trimmed([field] + params) == [field] + Trimmed([params[0]] + params[1..])
  {
    assert [params[0]] + params[1..] == params;
  }

  lemma {:induction false} PiecesOfJoin(field: string, delim: string, params: seq<string>)
    requires delim != "" && delim[0] !in field && DelimiterFree(params, delim)
    ensures Pieces(Join(field, delim, params), delim) == Trimmed([field] + params)
    decreases |params|
  {
    if params == [] {
      OnlyPiece(field, delim);
    } else {
      JoinFront(field, delim, params);
      FirstPiece(field, delim, Join(params[0], delim, params[1..]));
      PiecesOfJoin(params[0], delim, params[1..]);
      TrimmedCons(field, params);
    }
  }

  /** Split takes a joined string apart again, losing exactly an empty last field. */
  lemma SplitJoin(prefix: string, delim: string, params: seq<string>)
    requires delim != "" && delim[0] !in prefix && DelimiterFree(params, delim)
    ensures var fields, split := [prefix] + params, Split(Join(prefix, delim, params), delim);
      && (params != [] ==> split == Trimmed(fields))
      && (split == fields <==> params == [] || params[|params| - 1] != "")
  {
    PiecesOfJoin(prefix, delim, params);
    if params != [] {
      JoinFront(prefix, delim, params);
    }
  }

  // ---- Paths ------------------------------------------------------------------------------------

  function FirstSlash(path: string): (i: nat)
    ensures i <= |path| && '/' !in path[..i] && (i < |path| ==> path[i] == '/')
  {
    if path == "" || path[0] == '/' then 0
    else
      var i := FirstSlash(path[1..]);
      assert path[..i + 1] == [path[0]] + path[1..][..i];
      i + 1
  }

  /** The parts of a path between its slashes. */
  function Components(path: string): seq<string>
    decreases |path|
  {
    var i := FirstSlash(path);
    if i == |path| then [path] else [path[..i]] + Components(path[i + 1..])
  }

  /** A component ".." stands at position i. */
  predicate ParentAt(path: string, i: nat) {
    && i + 2 <= |path| && path[i] == '.' && path[i + 1] == '.'
    && (i == 0 || path[i - 1] == '/')
    && (i + 2 == |path| || path[i + 2] == '/')
  }

  lemma ThreeAt(s: string, d: string, i: nat)
    requires |d| == 3
    ensures OccursAt(s, d, i) <==> i + 3 <= |s| && s[i] == d[0] && s[i + 1] == d[1] && s[i + 2] == d[2]
  {
    assert i + 3 <= |s| ==> s[i + 0] == s[i];
  }

  lemma ParentInFirst(path: string, k: nat, i: nat)
    requires k < |path| && path[k] == '/' && '/' !in path[..k] && i <= k
    ensures ParentAt(path, i) <==> i == 0 && path[..k] == ".."
  {
    assert forall j: nat | j < k :: path[j] == path[..k][j];
  }

  lemma ParentInRest(path: string, k: nat, i: nat)
    requires k < |path| && path[k] == '/'
    ensures ParentAt(path[k + 1..], i) <==> ParentAt(path, k + 1 + i)
  {
  }

  ghost predicate HasParent(path: string) {
    exists i: nat :: ParentAt(path, i)
  }

  lemma ParentSplits(path: string, k: nat)
    requires k < |path| && path[k] == '/' && '/' !in path[..k]
    ensures HasParent(path) <==> path[..k] == ".." || HasParent(path[k + 1..])
  {
    ParentInFirst(path, k, 0);
    if i: nat :| ParentAt(path, i) {
      if i <= k {
        ParentInFirst(path, k, i);
      } else {
        ParentInRest(path, k, i - k - 1);
      }
    }
    var rest := path[k + 1..];
    if i: nat :| ParentAt(rest, i) {
      ParentInRest(path, k, i);
    }
  }

  lemma ParentAlone(path: string)
    requires '/' !in path
    ensures HasParent(path) <==> path == ".."
  {
    assert path == ".." ==> ParentAt(path, 0);
  }

  lemma {:induction false} ComponentsUnfold(path: string, k: nat, rest: seq<string>)
    requires k == FirstSlash(path) < |path| && rest == Components(path[k + 1..])
    ensures Components(path) == [path[..k]] + rest
  {
  }

  lemma InFront(x: string, front: string, rest: seq<string>)
    ensures x in [front] + rest <==> x == front || x in rest
  {
  }

  lemma {:induction false} ParentComponents(path: string)
    ensures ".." in Components(path) <==> HasParent(path)
    decreases |path|
  {
    var k := FirstSlash(path);
    if k == |path| {
      assert path[..k] == path;
      ParentAlone(path);
    } else {
      var rest := Components(path[k + 1..]);
      ComponentsUnfold(path, k, rest);
      InFront("..", path[..k], rest);
      ParentSplits(path, k);
      ParentComponents(path[k + 1..]);
    }
  }

  /** The search may go on three characters behind an occurrence of "../": none starts in between. */
  lemma NoOverlap(path: string, i: nat, j: nat)
    requires OccursAt(path, "../", i) && i < j < i + 3
    ensures !OccursAt(path, "../", j)
  {
    ThreeAt(path, "../", i);
    ThreeAt(path, "../", j);
  }

  /** std::string::rfind: the last occurrence. */
  function FindLast(s: string, d: string, pos: nat): (r: Option<nat>)
    ensures r.Some? ==> r.value <= pos && OccursAt(s, d, r.value)
    ensures forall i: nat | i <= pos && (r.Some? ==> r.value < i) :: !OccursAt(s, d, i)
  {
    if OccursAt(s, d, pos) then Some(pos) else if pos == 0 then None else FindLast(s, d, pos - 1)
  }

  predicate LeadingParentAt(path: string, i: nat) {
    OccursAt(path, "../", i) && (i == 0 || path[i - 1] == '/')
  }

  /** The search loop for a leading "../" finds one if there is one. */
  method HasLeadingParent(path: string) returns (found: bool)
    ensures found <==> exists i: nat :: LeadingParentAt(path, i)
  {
    var pos := Find(path, "../", 0);
    FindSpec(path, "../", 0);
    while pos.Some?
      invariant pos.Some? ==> OccursAt(path, "../", pos.value)
      invariant forall i: nat | LeadingParentAt(path, i) :: pos.Some? && pos.value <= i
      decreases if pos.Some? then |path| - pos.value else -1
    {
      var i := pos.value;
      if i == 0 || path[i - 1] == '/' {
        assert LeadingParentAt(path, i);
        return true;
      }
      pos := Find(path, "../", i + 3);
      FindSpec(path, "../", i + 3);
      forall j: nat | LeadingParentAt(path, j) ensures pos.Some? && pos.value <= j {
        if i < j < i + 3 {
          NoOverlap(path, i, j);
        }
      }
    }
    return false;
  }

  lemma ParentLeadsOrTrails(path: string, i: nat)
    ensures ParentAt(path, i) <==> LeadingParentAt(path, i) || (i + 2 == |path| && ParentAt(path, i))
  {
    ThreeAt(path, "../", i);
  }

  lemma TrailingParent(path: string)
    ensures |path| >= 3 ==> (OccursAt(path, "/..", |path| - 3) <==> ParentAt(path, |path| - 2))
  {
    if |path| >= 3 {
      ThreeAt(path, "/..", |path| - 3);
    }
  }

  /** A path is valid exactly when it has no backslash and no component "..". */
  method IsValidPath(path: string) returns (valid: bool)
    ensures valid <==> '\\' !in path && ".." !in Components(path)
  {
    ParentComponents(path);
    TrailingParent(path);
    if path == ".." || '\\' in path {
      assert path == ".." ==> ParentAt(path, 0);
      return false;
    }
    var leading := HasLeadingParent(path);
    if leading {
      ghost var i: nat :| LeadingParentAt(path, i);
      ParentLeadsOrTrails(path, i);
      return false;
    }
    var pos := FindLast(path, "/..", |path|);
    if pos.Some? && |path| - pos.value == 3 {
      return false;
    }
    forall i: nat ensures !ParentAt(path, i) {
      ParentLeadsOrTrails(path, i);
    }
    return true;
  }
}
