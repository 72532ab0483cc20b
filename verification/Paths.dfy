/** The standard form of paths. */
module Paths {
  import opened Collections

  predicate IsSep(ch: char) {
    ch == '/' || ch == '\\'
  }

  /** How many separators `s` starts with. */
  function SepLength(s: string): (n: nat)
    ensures n <= |s| && (n < |s| ==> !IsSep(s[n]))
  {
    if s == "" || !IsSep(s[0]) then 0 else 1 + SepLength(s[1..])
  }

  /** What the main loop makes of `s`, just behind a separator or not. */
  function Body(s: string, gotSep: bool): string
    decreases |s|
  {
    if s == "" then ""
    else if s[0] == '.' then
      if SepLength(s[1..]) > 0 then Body(s[1..][SepLength(s[1..])..], gotSep) else "." + Body(s[1..], gotSep)
    else if !IsSep(s[0]) then [s[0]] + Body(s[1..], false)
    else if gotSep then Body(s[1..], true)
    else "/" + Body(s[1..], true)
  }

  predicate EndsInCurDir(s: string) {
    |s| > 1 && s[|s| - 2..] == "/."
  }

  function Trimmed(s: string): string {
    if EndsInCurDir(s) then s[..|s| - 2] else s
  }

  function Standard(path: string): string {
    Trimmed(Body(path, false))
  }

  method SkipSeps(path: string, start: nat) returns (idx: nat)
    requires start <= |path|
    ensures idx == start + SepLength(path[start..])
  {
    idx := start;
    while idx < |path| && (path[idx] == '/' || path[idx] == '\\')
      invariant start <= idx <= |path|
      invariant start + SepLength(path[start..]) == idx + SepLength(path[idx..])
    {
      assert path[idx..][1..] == path[idx + 1..];
      idx := idx + 1;
    }
  }

  method StandardizePath(path: string) returns (spath: string)
    ensures spath == Standard(path) && IsNormal(spath) && (IsNormal(path) ==> spath == path)
  {
    StandardIsNormal(path);
    if IsNormal(path) {
      NormalIsStandard(path);
    }
    var gotSep := false;
    spath := "";
    var idx := 0;
    while idx < |path|
      invariant 0 <= idx <= |path|
      invariant spath + Body(path[idx..], gotSep) == Body(path, false)
    {
      ghost var rest := path[idx..];
      assert rest[1..] == path[idx + 1..];
      if path[idx] == '.' {
        idx := idx + 1;
        var curDirEnd := SkipSeps(path, idx);
        assert rest[1..][curDirEnd - idx..] == path[curDirEnd..];
        if curDirEnd == idx {
          Regroup3(spath, ".", Body(rest[1..], gotSep));
          spath := spath + ".";
        }
        idx := curDirEnd;
      } else {
        var ch := path[idx];
        if ch != '/' && ch != '\\' {
          Regroup3(spath, [ch], Body(rest[1..], false));
          gotSep := false;
          spath := spath + [ch];
        } else if !gotSep {
          Regroup3(spath, "/", Body(rest[1..], true));
          gotSep := true;
          spath := spath + "/";
        }
        idx := idx + 1;
      }
    }
    assert spath + "" == spath;
    if |spath| > 1 && spath[|spath| - 2..] == "/." {
      spath := spath[..|spath| - 2];
    }
  }

  /** No backslash, no two separators in a row, and no dot before a separator. */
  predicate IsTidy(s: string) {
    && '\\' !in s
    && forall i | 0 <= i < |s| - 1 :: s[i + 1] == '/' ==> s[i] != '/' && s[i] != '.'
  }

  predicate IsNormal(s: string) {
    IsTidy(s) && !EndsInCurDir(s)
  }

  predicate StartsWithSep(s: string) {
    s != "" && IsSep(s[0])
  }

  lemma TidyCons(ch: char, s: string)
    requires IsTidy(s) && ch != '\\' && (ch == '/' || ch == '.' ==> !StartsWithSep(s))
    ensures IsTidy([ch] + s)
  {
    var t := [ch] + s;
    forall i | 0 <= i < |t| - 1 && t[i + 1] == '/' ensures t[i] != '/' && t[i] != '.' {
      assert t[i + 1] == s[i];
      if i > 0 {
        assert s[i - 1 + 1] == '/' && t[i] == s[i - 1];
      }
    }
  }

  lemma {:induction false} BodyIsTidy(s: string, gotSep: bool)
    ensures IsTidy(Body(s, gotSep))
    ensures gotSep || !StartsWithSep(s) ==> !StartsWithSep(Body(s, gotSep))
    decreases |s|
  {
    if s != "" {
      if s[0] == '.' {
        var n := SepLength(s[1..]);
        BodyIsTidy(s[1..][n..], gotSep);
        if n == 0 {
          assert s[1..][0..] == s[1..];
          TidyCons('.', Body(s[1..], gotSep));
        }
      } else if !IsSep(s[0]) {
        BodyIsTidy(s[1..], false);
        TidyCons(s[0], Body(s[1..], false));
      } else {
        BodyIsTidy(s[1..], true);
        TidyCons('/', Body(s[1..], true));
      }
    }
  }

  lemma TrimmedIsNormal(s: string)
    requires IsTidy(s)
    ensures IsNormal(Trimmed(s))
  {
    if EndsInCurDir(s) {
      var t := s[..|s| - 2];
      assert s[|t|] == s[|s| - 2..][0] == '/';
      if |t| > 1 {
        assert t[|t| - 2..][1] == t[|t| - 1] == s[|t| - 1] && s[|t| - 1 + 1] == '/';
      }
      assert forall i | 0 <= i < |t| :: t[i] == s[i];
    }
  }

  /** Whatever the path, its standard form has no backslash, no "//", no "./", and no "/." at its end. */
  lemma StandardIsNormal(path: string)
    ensures IsNormal(Standard(path))
  {
    BodyIsTidy(path, false);
    TrimmedIsNormal(Body(path, false));
  }

  lemma {:induction false} BodyOfTidy(s: string, gotSep: bool)
    requires IsTidy(s) && (gotSep ==> !StartsWithSep(s))
    ensures Body(s, gotSep) == s
    decreases |s|
  {
    if s != "" {
      var t := s[1..];
      assert forall i | 0 <= i < |t| :: t[i] == s[i + 1];
      assert t != "" && t[0] == '/' ==> s[0] != '/' && s[0] != '.' by {
        assert |s| > 1 ==> s[0 + 1] == t[0];
      }
      BodyOfTidy(t, if s[0] == '.' then gotSep else s[0] == '/');
      assert [s[0]] + t == s;
    }
  }

  /** A path in normal form is its own standard form; hence to standardize twice is to standardize once. */
  lemma NormalIsStandard(path: string)
    requires IsNormal(path)
    ensures Standard(path) == path
  {
    BodyOfTidy(path, false);
  }

  lemma StandardTwice(path: string)
    ensures Standard(Standard(path)) == Standard(path)
  {
    StandardIsNormal(path);
    NormalIsStandard(Standard(path));
  }

  /** The names on a path, current directories left out; `cur` has been read of the first. */
  function Names(s: string, cur: string): seq<string>
    decreases |s|
  {
    if s == "" then Name(cur)
    else if IsSep(s[0]) then Name(cur) + Names(s[1..], "")
    else Names(s[1..], cur + [s[0]])
  }

  function Name(cur: string): seq<string> {
    if cur == "" || cur == "." then [] else [cur]
  }

  /** What the main loop is meant to do: like Body, but a dot is a current directory only where a name may
      start. */
  function Clean(s: string, start: bool, gotSep: bool): string
    decreases |s|
  {
    if s == "" then ""
    else if s[0] == '.' && start && SepLength(s[1..]) > 0 then Clean(s[1..][SepLength(s[1..])..], true, gotSep)
    else if !IsSep(s[0]) then [s[0]] + Clean(s[1..], false, false)
    else if gotSep then Clean(s[1..], true, true)
    else "/" + Clean(s[1..], true, true)
  }

  /** How many names, other than current directories, end in a dot before a separator. */
  function DotsAtEnds(s: string, start: bool): nat
    decreases |s|
  {
    if s == "" then 0
    else if s[0] == '.' && SepLength(s[1..]) > 0 then
      (if start then 0 else 1) + DotsAtEnds(s[1..][SepLength(s[1..])..], true)
    else DotsAtEnds(s[1..], IsSep(s[0]))
  }

  lemma {:induction false} CleanSeps(s: string, start: bool)
    requires SepLength(s) > 0
    ensures Clean(s, start, true) == Clean(s[SepLength(s)..], true, true)
    ensures Clean(s, start, false) == "/" + Clean(s[SepLength(s)..], true, true)
    decreases |s|
  {
    assert s[SepLength(s)..] == s[1..][SepLength(s) - 1..];
    if SepLength(s) > 1 {
      CleanSeps(s[1..], true);
    }
  }

  lemma {:induction false} SepsIgnored(s: string, start: bool, g: bool, g': bool)
    requires !StartsWithSep(s)
    ensures Clean(s, start, g) == Clean(s, start, g')
    decreases |s|
  {
    if s != "" && s[0] == '.' && start && SepLength(s[1..]) > 0 {
      SepsIgnored(s[1..][SepLength(s[1..])..], true, g, g');
    }
  }

  /** Each name that ends in a dot before a separator costs two characters, dot and separator; where there is
      none, the loop does what it is meant to do. */
  lemma {:induction false} BodyVersusClean(s: string, start: bool, gotSep: bool, g: bool)
    requires StartsWithSep(s) ==> g == gotSep
    ensures |Clean(s, start, gotSep)| == |Body(s, g)| + 2 * DotsAtEnds(s, start)
    ensures DotsAtEnds(s, start) == 0 ==> Clean(s, start, gotSep) == Body(s, g)
    decreases |s|
  {
    if s != "" {
      var t := s[1..];
      var n := SepLength(t);
      if s[0] == '.' && n > 0 {
        if !start {
          CleanSeps(t, false);
          SepsIgnored(t[n..], true, true, gotSep);
        }
        BodyVersusClean(t[n..], true, gotSep, g);
      } else if s[0] == '.' {
        BodyVersusClean(t, false, false, g);
      } else if !IsSep(s[0]) {
        BodyVersusClean(t, false, false, false);
      } else {
        BodyVersusClean(t, true, true, true);
      }
    }
  }

  /** The loop does what it is meant to do exactly if no name but a current directory ends in a dot before a
      separator. */
  lemma AsMeantIff(path: string)
    ensures Body(path, false) == Clean(path, true, false) <==> DotsAtEnds(path, true) == 0
  {
    BodyVersusClean(path, true, false, false);
  }

  lemma {:induction false} NamesOfSeps(s: string)
    ensures Names(s, "") == Names(s[SepLength(s)..], "")
    decreases |s|
  {
    if SepLength(s) > 0 {
      NamesOfSeps(s[1..]);
      assert s[SepLength(s)..] == s[1..][SepLength(s) - 1..];
      assert [] + Names(s[1..], "") == Names(s[1..], "");
    }
  }

  lemma {:induction false} CleanKeepsNames(s: string, gotSep: bool, cur: string)
    requires gotSep ==> cur == ""
    ensures Names(Clean(s, cur == "", gotSep), cur) == Names(s, cur)
    decreases |s|
  {
    if s != "" {
      var t := s[1..];
      var n := SepLength(t);
      if s[0] == '.' && cur == "" && n > 0 {
        CleanKeepsNames(t[n..], gotSep, "");
        NamesOfSeps(t[1..]);
        assert t[1..][n - 1..] == t[n..];
        assert "" + ['.'] == ".";
        assert [] + Names(t[1..], "") == Names(t[1..], "");
      } else if !IsSep(s[0]) {
        CleanKeepsNames(t, false, cur + [s[0]]);
        assert ([s[0]] + Clean(t, false, false))[1..] == Clean(t, false, false);
      } else {
        CleanKeepsNames(t, true, "");
        assert ("/" + Clean(t, true, true))[1..] == Clean(t, true, true);
        assert [] + Names(t, "") == Names(t, "");
      }
    }
  }

  /** Separators and current directories, and the last one of these at the end: of the form (/+.)+. */
  predicate CurDirs(s: string)
    decreases |s|
  {
    SepLength(s) > 0 && IsCurDirs(s[SepLength(s)..])
  }

  /** The same without separators in front. */
  predicate IsCurDirs(s: string)
    decreases |s|
  {
    s != "" && s[0] == '.' && (s[1..] == "" || CurDirs(s[1..]))
  }

  lemma {:induction false} CurDirsHaveNoName(s: string, cur: string)
    requires CurDirs(s)
    ensures Names(s, cur) == Name(cur)
    decreases |s|
  {
    var n := SepLength(s);
    var dirs := s[n..];
    NamesOfSeps(s[1..]);
    assert s[1..][n - 1..] == dirs && "" + [dirs[0]] == ".";
    assert Names(dirs, "") == Names(dirs[1..], ".");
    if dirs[1..] != "" {
      CurDirsHaveNoName(dirs[1..], ".");
    }
    assert Name(cur) + [] == Name(cur);
  }

  lemma {:induction false} TrailerHasNoName(s: string, trailer: string, cur: string)
    requires CurDirs(trailer)
    ensures Names(s + trailer, cur) == Names(s, cur)
    decreases |s|
  {
    if s == "" {
      assert s + trailer == trailer;
      CurDirsHaveNoName(trailer, cur);
    } else {
      assert (s + trailer)[1..] == s[1..] + trailer;
      TrailerHasNoName(s[1..], trailer, if IsSep(s[0]) then "" else cur + [s[0]]);
    }
  }

  lemma TrimmedKeepsNames(s: string)
    ensures Names(Trimmed(s), "") == Names(s, "")
  {
    if EndsInCurDir(s) {
      var trailer := "/.";
      assert trailer[1..] == "." && "."[0..] == "." && "."[1..] == "";
      assert SepLength(trailer) == 1 && IsCurDirs(".");
      TrailerHasNoName(Trimmed(s), trailer, "");
      assert Trimmed(s) + trailer == s;
    }
  }

  lemma NamesWithoutDots(path: string)
    requires DotsAtEnds(path, true) == 0
    ensures Names(Body(path, false), "") == Names(path, "")
  {
    AsMeantIff(path);
    CleanKeepsNames(path, false, "");
  }

  /** All characters of some names. */
  function Size(names: seq<string>): nat {
    if names == [] then 0 else |names[0]| + Size(names[1..])
  }

  /** All characters but separators. */
  function NonSeps(s: string): nat {
    if s == "" then 0 else (if IsSep(s[0]) then 0 else 1) + NonSeps(s[1..])
  }

  /** How many current directories there are with a separator behind them. */
  function CurDirCount(s: string, start: bool): nat
    decreases |s|
  {
    if s == "" then 0
    else (if start && s[0] == '.' && StartsWithSep(s[1..]) then 1 else 0) + CurDirCount(s[1..], IsSep(s[0]))
  }

  /** The last thing in `s` is a current directory. */
  predicate EndsAtDot(s: string, start: bool)
    decreases |s|
  {
    s != "" && if |s| == 1 then start && s[0] == '.' else EndsAtDot(s[1..], IsSep(s[0]))
  }

  function One(b: bool): nat {
    if b then 1 else 0
  }

  lemma {:induction false} SizeOfJoined(a: seq<string>, b: seq<string>)
    ensures Size(a + b) == Size(a) + Size(b)
  {
    if a == [] {
      assert a + b == b;
    } else {
      assert (a + b)[1..] == a[1..] + b;
      SizeOfJoined(a[1..], b);
    }
  }

  lemma SizeOfName(cur: string)
    ensures Size(Name(cur)) == if cur == "." then 0 else |cur|
  {
    if Name(cur) != [] {
      assert [cur][1..] == [];
    }
  }

  /** Every character that is no separator belongs to a name, or is a current directory. */
  lemma {:induction false} NamesCounted(s: string, cur: string)
    ensures Size(Names(s, cur)) + CurDirCount(s, cur == "") + One(EndsAtDot(s, cur == ""))
            + One(cur == "." && (s == "" || IsSep(s[0]))) == |cur| + NonSeps(s)
    decreases |s|
  {
    SizeOfName(cur);
    if s != "" {
      if IsSep(s[0]) {
        NamesCounted(s[1..], "");
        SizeOfJoined(Name(cur), Names(s[1..], ""));
      } else {
        NamesCounted(s[1..], cur + [s[0]]);
        assert |cur + [s[0]]| == |cur| + 1 && (cur == "" ==> cur + [s[0]] == [s[0]]);
      }
    }
  }

  lemma {:induction false} CountsOfSeps(s: string, start: bool)
    ensures NonSeps(s) == NonSeps(s[SepLength(s)..])
    ensures SepLength(s) > 0 ==> CurDirCount(s, start) == CurDirCount(s[SepLength(s)..], true)
    ensures SepLength(s) > 0 ==> EndsAtDot(s, start) == EndsAtDot(s[SepLength(s)..], true)
    decreases |s|
  {
    if SepLength(s) > 0 {
      CountsOfSeps(s[1..], true);
      assert s[SepLength(s)..] == s[1..][SepLength(s) - 1..];
    } else {
      assert s[0..] == s;
    }
  }

  /** The main loop takes away current directories, and the dots that DotsAtEnds counts. */
  lemma {:induction false} BodyCounted(s: string, start: bool, gotSep: bool)
    ensures NonSeps(Body(s, gotSep)) + CurDirCount(s, start) + DotsAtEnds(s, start) == NonSeps(s)
    decreases |s|
  {
    if s != "" {
      var t := s[1..];
      var n := SepLength(t);
      if s[0] == '.' && n > 0 {
        CountsOfSeps(t, false);
        BodyCounted(t[n..], true, gotSep);
      } else if s[0] == '.' {
        BodyCounted(t, false, gotSep);
        assert ("." + Body(t, gotSep))[1..] == Body(t, gotSep);
      } else if !IsSep(s[0]) {
        BodyCounted(t, false, false);
        assert ([s[0]] + Body(t, false))[1..] == Body(t, false);
      } else {
        BodyCounted(t, true, true);
        assert ("/" + Body(t, true))[1..] == Body(t, true);
      }
    }
  }

  lemma {:induction false} TidyHasNoCurDirs(s: string, start: bool)
    requires IsTidy(s)
    ensures CurDirCount(s, start) == 0
    decreases |s|
  {
    if s != "" {
      var t := s[1..];
      assert forall i | 0 <= i < |t| :: t[i] == s[i + 1];
      assert t != "" && s[0] == '.' ==> t[0] != '/' by {
        assert |s| > 1 ==> s[0 + 1] == t[0];
      }
      TidyHasNoCurDirs(t, IsSep(s[0]));
    }
  }

  /** Each dot that DotsAtEnds counts is a character less in the names, and one is won back where a current
      directory at the end has become part of a name. */
  lemma CharactersLost(path: string)
    ensures Size(Names(Standard(path), "")) + DotsAtEnds(path, true) + One(EndsAtDot(Body(path, false), true))
            == Size(Names(path, "")) + One(EndsAtDot(path, true))
  {
    var body := Body(path, false);
    TrimmedKeepsNames(body);
    NamesCounted(body, "");
    NamesCounted(path, "");
    BodyCounted(path, true, false);
    BodyIsTidy(path, false);
    TidyHasNoCurDirs(body, true);
  }

  /** A name, or what there is of it behind a name's start, has a dot at its end, and behind that are only
      current directories. */
  ghost predicate DotReturns(s: string, start: bool) {
    exists k: nat :: DotAt(s, start, k)
  }

  predicate DotAt(s: string, start: bool, k: nat) {
    k < |s| && s[k] == '.' && (if k == 0 then !start else !IsSep(s[k - 1])) && CurDirs(s[k + 1..])
  }

  lemma ReturnsBehind(s: string, start: bool, n: nat)
    requires 0 < n <= |s|
    ensures DotReturns(s[n..], IsSep(s[n - 1])) ==> DotReturns(s, start)
  {
    var t, after := s[n..], IsSep(s[n - 1]);
    if DotReturns(t, after) {
      var k: nat :| DotAt(t, after, k);
      assert s[n + k] == t[k] && s[n + k + 1..] == t[k + 1..] && (k > 0 ==> s[n + k - 1] == t[k - 1]);
      assert DotAt(s, start, n + k);
    }
  }

  lemma {:induction false} SepLengthIs(s: string)
    ensures SepLength(s) > 0 ==> IsSep(s[SepLength(s) - 1])
  {
    if SepLength(s) > 1 {
      SepLengthIs(s[1..]);
    }
  }

  /** Where a current directory at the end does not remain one, it has come behind a name that has lost its
      dot. What the loop has written may be inside a name although what it has read is at the start of one. */
  lemma {:induction false} LastDotReturns(s: string, start: bool, gotSep: bool, outStart: bool)
    requires outStart ==> start
    requires StartsWithSep(s) ==> start == outStart && (gotSep ==> outStart)
    requires EndsAtDot(s, start) && !EndsAtDot(Body(s, gotSep), outStart)
    ensures (start && !outStart && IsCurDirs(s)) || DotReturns(s, start)
    decreases |s|
  {
    var t := s[1..];
    var n := SepLength(t);
    ReturnsBehind(s, start, 1);
    if s[0] == '.' && n > 0 {
      var rest := t[n..];
      CountsOfSeps(t, false);
      SepLengthIs(t);
      ReturnsBehind(s, start, n + 1);
      assert s[n + 1..] == rest;
      LastDotReturns(rest, true, gotSep, outStart);
      if !start && IsCurDirs(rest) {
        assert DotAt(s, start, 0);
      }
    } else if s[0] == '.' {
      if t != "" {
        assert ("." + Body(t, gotSep))[1..] == Body(t, gotSep);
        LastDotReturns(t, false, gotSep, false);
      }
    } else if !IsSep(s[0]) {
      assert ([s[0]] + Body(t, false))[1..] == Body(t, false);
      LastDotReturns(t, false, false, false);
    } else {
      assert ("/" + Body(t, true))[1..] == Body(t, true);
      LastDotReturns(t, true, true, true);
    }
  }

  lemma {:induction false} BodyOfCurDirs(s: string, gotSep: bool, start: bool)
    requires IsCurDirs(s)
    ensures Body(s, gotSep) == "."
    ensures DotsAtEnds(s, start) == One(!start && s[1..] != "")
    decreases |s|
  {
    if s[1..] != "" {
      BodyOfCurDirs(s[1..][SepLength(s[1..])..], gotSep, true);
    }
  }

  lemma SepLengthJoined(s: string, dot: string)
    requires StartsWithDot(dot)
    ensures SepLength(s + dot) == SepLength(s)
    decreases |s|
  {
    if s == "" {
      assert s + dot == dot;
    } else {
      assert (s + dot)[1..] == s[1..] + dot;
      SepLengthJoined(s[1..], dot);
    }
  }

  predicate StartsWithDot(s: string) {
    s != "" && s[0] == '.'
  }

  /** What the main loop takes to come behind the first character, and behind the separators that follow it. */
  lemma NotOnlySeps(s: string)
    requires s != "" && !IsSep(s[|s| - 1])
    ensures SepLength(s) < |s|
  {
    SepLengthIs(s);
  }

  lemma FirstOfJoined(front: string, dot: string)
    requires front != "" && !IsSep(front[|front| - 1]) && StartsWithDot(dot)
    ensures (front + dot)[0] == front[0] && (front + dot)[1..] == front[1..] + dot
    ensures SepLength(front[1..] + dot) == SepLength(front[1..])
    ensures (front[1..] + dot)[SepLength(front[1..])..] == front[1..][SepLength(front[1..])..] + dot
    ensures front[1..] == "" || SepLength(front[1..]) < |front[1..]|
    ensures IsSep(front[0]) ==> front[1..] != ""
  {
    SepLengthJoined(front[1..], dot);
    if front[1..] != "" {
      NotOnlySeps(front[1..]);
    }
  }

  /** Current directories behind a name that ends in a dot are lost, and so is one of their dots. */
  lemma {:induction false} DotsMeet(front: string, dirs: string, gotSep: bool)
    requires IsCurDirs(dirs) && (front == "" || !IsSep(front[|front| - 1]))
    ensures Body(front + dirs, gotSep) == Body(front + ".", gotSep)
    decreases |front|
  {
    if front == "" {
      assert front + dirs == dirs && front + "." == "." && "."[1..] == "";
      BodyOfCurDirs(dirs, gotSep, true);
    } else {
      var t := front[1..];
      FirstOfJoined(front, dirs);
      FirstOfJoined(front, ".");
      if front[0] == '.' && SepLength(t) > 0 {
        DotsMeet(t[SepLength(t)..], dirs, gotSep);
      } else {
        DotsMeet(t, dirs, if IsSep(front[0]) then true else if front[0] == '.' then gotSep else false);
      }
    }
  }

  /** That dot is one that DotsAtEnds counts. */
  lemma {:induction false} DotsMeetCounted(front: string, dirs: string, start: bool)
    requires IsCurDirs(dirs) && dirs[1..] != "" && (front == "" || !IsSep(front[|front| - 1]))
    ensures DotsAtEnds(front + dirs, start) == DotsAtEnds(front + ".", start) + One(front != "" || !start)
    decreases |front|
  {
    if front == "" {
      assert front + dirs == dirs && front + "." == "." && "."[1..] == "";
      BodyOfCurDirs(dirs, true, start);
    } else {
      var t := front[1..];
      FirstOfJoined(front, dirs);
      FirstOfJoined(front, ".");
      if front[0] == '.' && SepLength(t) > 0 {
        DotsMeetCounted(t[SepLength(t)..], dirs, true);
      } else {
        DotsMeetCounted(t, dirs, IsSep(front[0]));
      }
    }
  }

  /** If that is the only dot that is counted, then no name is lost. */
  lemma NamesKeptBefore(path: string, k: nat)
    requires DotAt(path, true, k) && DotsAtEnds(path, true) == 1
    ensures Names(Body(path, false), "") == Names(path, "")
  {
    var front, dirs := path[..k], path[k..];
    assert path == front + dirs && dirs[1..] == path[k + 1..] && IsCurDirs(dirs);
    DotsMeet(front, dirs, false);
    DotsMeetCounted(front, dirs, true);
    NamesWithoutDots(front + ".");
    assert path == front + "." + dirs[1..];
    TrailerHasNoName(front + ".", dirs[1..], "");
  }

  /** The standard form has the same names in the same order exactly if no name other than a current directory
      ends in a dot before a separator, or just one does and behind it are only current directories, the last
      of which gives it its dot back. */
  lemma NamesKeptIff(path: string)
    ensures Names(Standard(path), "") == Names(path, "") <==>
              || DotsAtEnds(path, true) == 0
              || (DotsAtEnds(path, true) == 1 && DotReturns(path, true))
  {
    var body := Body(path, false);
    TrimmedKeepsNames(body);
    CharactersLost(path);
    if DotsAtEnds(path, true) == 0 {
      NamesWithoutDots(path);
    } else if DotsAtEnds(path, true) == 1 && DotReturns(path, true) {
      var k: nat :| DotAt(path, true, k);
      NamesKeptBefore(path, k);
    } else if EndsAtDot(path, true) && !EndsAtDot(body, true) {
      LastDotReturns(path, true, false, true);
    }
  }

  /** A dot and a separator go, whatever stands before them. */
  lemma DotDropped(name: char, gotSep: bool)
    requires !IsSep(name) && name != '.'
    ensures Body("." + ("/" + [name]), gotSep) == [name]
  {
    var one: string := [name];
    var two := "/" + one;
    var s := "." + two;
    assert s[1..] == two && two[1..] == one && one[1..] == "";
    assert SepLength(one) == 0 && SepLength(two) == 1;
    assert Body(one, gotSep) == one;
  }

  /** Paths that lose what they mean: a name with a dot at its end is joined to the next, and a parent
      directory becomes part of the name behind it. */
  lemma NamesLost(x: char, y: char)
    requires !IsSep(x) && x != '.' && !IsSep(y) && y != '.'
    ensures Standard([x] + ("." + ("/" + [y]))) == [x, y]
    ensures Standard("." + ("." + ("/" + [y]))) == ['.', y]
  {
    var rest := "." + ("/" + [y]);
    DotDropped(y, false);
    assert ([x] + rest)[1..] == rest && ("." + rest)[1..] == rest;
    assert rest[0] == '.';
    assert Body([x] + rest, false) == [x] + [y];
    assert Body("." + rest, false) == "." + [y];
    assert ([x] + [y])[0..][0] == x && ("." + [y])[0..][0] == '.' && "/."[0] == '/';
  }

  predicate OnlySepsAndDots(s: string) {
    forall i | 0 <= i < |s| :: IsSep(s[i]) || s[i] == '.'
  }

  /** How many dots have no separator directly behind them. */
  function DotsLeft(s: string): nat {
    if s == "" then 0 else One(s[0] == '.' && !StartsWithSep(s[1..])) + DotsLeft(s[1..])
  }

  lemma {:induction false} DotsLeftBehind(s: string)
    requires OnlySepsAndDots(s)
    ensures OnlySepsAndDots(s[SepLength(s)..]) && DotsLeft(s[SepLength(s)..]) == DotsLeft(s)
    decreases |s|
  {
    if SepLength(s) > 0 {
      DotsLeftBehind(s[1..]);
      assert s[SepLength(s)..] == s[1..][SepLength(s) - 1..];
    } else {
      assert s[0..] == s;
    }
  }

  /** Behind a separator, nothing but dots is left of separators and dots. */
  lemma {:induction false} BodyOfDots(s: string)
    requires OnlySepsAndDots(s)
    ensures |Body(s, true)| == DotsLeft(s) && forall i | 0 <= i < DotsLeft(s) :: Body(s, true)[i] == '.'
    decreases |s|
  {
    if s != "" {
      var t := s[1..];
      BodyOfDots(t);
      if s[0] == '.' && SepLength(t) > 0 {
        DotsLeftBehind(t);
        BodyOfDots(t[SepLength(t)..]);
      }
    }
  }

  lemma {:induction false} OthersStay(s: string, gotSep: bool, i: nat)
    requires i < |s| && !IsSep(s[i]) && s[i] != '.'
    ensures s[i] in Body(s, gotSep)
    decreases |s|
  {
    var t := s[1..];
    var n := SepLength(t);
    if s[0] == '.' && n > 0 {
      SepsUpTo(t, i - 1);
      assert t[n..][i - 1 - n] == s[i];
      OthersStay(t[n..], gotSep, i - 1 - n);
    } else if i > 0 {
      assert t[i - 1] == s[i];
      OthersStay(t, if IsSep(s[0]) then true else if s[0] == '.' then gotSep else false, i - 1);
    }
  }

  lemma {:induction false} SepsUpTo(s: string, i: nat)
    requires i < |s| && !IsSep(s[i])
    ensures SepLength(s) <= i
  {
    if i > 0 {
      SepsUpTo(s[1..], i - 1);
    }
  }

  lemma OneDotIff(s: string)
    ensures Body(s, true) == "." <==> OnlySepsAndDots(s) && DotsLeft(s) == 1
  {
    if OnlySepsAndDots(s) {
      BodyOfDots(s);
    } else {
      var i :| 0 <= i < |s| && !IsSep(s[i]) && s[i] != '.';
      OthersStay(s, true, i);
    }
  }

  /** An absolute path stays absolute or becomes empty, and the latter exactly if it consists of separators and
      dots, of which just one has no separator directly behind it: such as "/.", but also "/../". A relative
      path never becomes absolute. */
  lemma AbsoluteIff(path: string)
    ensures StartsWithSep(Standard(path)) <==> StartsWithSep(path) && !(OnlySepsAndDots(path) && DotsLeft(path) == 1)
    ensures StartsWithSep(path) ==> (Standard(path) == "" <==> OnlySepsAndDots(path) && DotsLeft(path) == 1)
    ensures StartsWithSep(path) && Standard(path) != "" ==> Standard(path)[0] == '/'
  {
    if StartsWithSep(path) {
      var t := path[1..];
      var rest := Body(t, true);
      OneDotIff(t);
      assert OnlySepsAndDots(path) <==> OnlySepsAndDots(t) by {
        assert forall i | 0 <= i < |t| :: t[i] == path[i + 1];
      }
      RootTrimmed(rest);
    } else {
      BodyIsTidy(path, false);
      assert Standard(path) <= Body(path, false);
    }
  }

  lemma RootTrimmed(rest: string)
    ensures Trimmed("/" + rest) == "" <==> rest == "."
    ensures Trimmed("/" + rest) != "" ==> Trimmed("/" + rest)[0] == '/'
  {
    var s := "/" + rest;
    assert rest == "." ==> s[0..] == s && s == "/.";
    assert |s| == 2 && EndsInCurDir(s) ==> rest == [s[2 - 2..][1]];
  }
}
