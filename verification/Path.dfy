/** Path names: the components they name, and the one-pass normalisation into a buffer. */
module Path {

  const PATH_MAX := 255

  // ---------------------------------------------------------------- what a path names

  /** The first slash of a string, or its end. */
  function FirstSlash(s: string): (k: nat)
    ensures k <= |s| && (k < |s| ==> s[k] == '/') && '/' !in s[..k]
  {
    if s == "" || s[0] == '/' then 0
    else
      var k := 1 + FirstSlash(s[1..]);
      assert s[..k] == [s[0]] + s[1..][..k - 1];
      k
  }

  /** The pieces between the slashes; nothing follows a slash at the end. */
  function Components(s: string): (cs: seq<string>)
    decreases |s|
  {
    if s == "" then []
    else
      var k := FirstSlash(s);
      [s[..k]] + if k < |s| then Components(s[k + 1..]) else []
  }

  /** Step into a component: "." stays, ".." goes up and stays at the root, anything else goes down. */
  function Enter(dir: seq<string>, c: string): seq<string> {
    if c == "." then dir
    else if c == ".." then if dir == [] then [] else dir[..|dir| - 1]
    else dir + [c]
  }

  function Walk(dir: seq<string>, cs: seq<string>): seq<string>
    decreases |cs|
  {
    if cs == [] then dir else Walk(Enter(dir, cs[0]), cs[1..])
  }

  /** Each component with a slash before it. */
  function Joined(dir: seq<string>): (r: string)
    ensures dir != [] ==> r != "" && r[0] == '/'
  {
    if dir == [] then "" else Joined(dir[..|dir| - 1]) + "/" + dir[|dir| - 1]
  }

  /** The path of a directory: no slash at the end except for the root. */
  function Render(dir: seq<string>): string {
    if dir == [] then "/" else Joined(dir)
  }

  /** What a path with a leading slash comes down to. */
  function Normal(path: string): string
    requires path != ""
  {
    Render(Walk([], Components(path[1..])))
  }

  predicate NoDoubleSlash(s: string) {
    forall k :: 0 < k < |s| ==> !(s[k - 1] == '/' && s[k] == '/')
  }

  /** The paths the normaliser takes. */
  predicate Acceptable(path: string) {
    1 <= |path| <= PATH_MAX && path[0] == '/' && NoDoubleSlash(path) && '\\' !in path
  }

  // ---------------------------------------------------------------- directories

  /** A component that names an entry: not empty, no slash or backslash, neither "." nor "..". */
  predicate Plain(c: string) {
    c != "" && '/' !in c && '\\' !in c && c != "." && c != ".."
  }

  predicate Clean(dir: seq<string>) {
    forall k :: 0 <= k < |dir| ==> Plain(dir[k])
  }

  /** The path of a directory with a slash at the end. */
  function Dir(dir: seq<string>): (r: string)
    ensures r != "" && r[0] == '/' && r[|r| - 1] == '/'
  {
    Joined(dir) + "/"
  }

  lemma DirDown(dir: seq<string>, c: string)
    ensures Dir(dir + [c]) == Dir(dir) + c + "/" && Joined(dir + [c]) == Dir(dir) + c
  {
    assert (dir + [c])[..|dir|] == dir;
  }

  lemma DirUp(dir: seq<string>)
    requires dir != []
    ensures var up, c := dir[..|dir| - 1], dir[|dir| - 1];
            Dir(dir) == Dir(up) + c + "/" && |Dir(dir)| == |Dir(up)| + |c| + 1
  {
    var up, c := dir[..|dir| - 1], dir[|dir| - 1];
    assert up + [c] == dir;
    DirDown(up, c);
  }

  /** A string up to its first slash. */
  lemma FirstComponent(s: string, k: nat)
    requires k <= |s| && '/' !in s[..k] && (k < |s| ==> s[k] == '/')
    ensures FirstSlash(s) == k
    ensures s != "" ==> Components(s) == [s[..k]] + if k < |s| then Components(s[k + 1..]) else []
  {
    FirstSlashIs(s, k);
    hide FirstSlash, Components;
    if s != "" {
      ComponentsAt(s, k);
    }
  }

  lemma ComponentsAt(s: string, k: nat)
    requires s != "" && FirstSlash(s) == k
    ensures Components(s) == [s[..k]] + if k < |s| then Components(s[k + 1..]) else []
  {
    hide FirstSlash;
  }

  lemma FirstSlashIs(s: string, k: nat)
    requires k <= |s| && '/' !in s[..k] && (k < |s| ==> s[k] == '/')
    ensures FirstSlash(s) == k
  {
    hide FirstSlash;
    Absent('/', s, k);
    Absent('/', s, FirstSlash(s));
  }

  lemma Absent(x: char, s: string, k: nat)
    requires k <= |s| && x !in s[..k]
    ensures forall i :: 0 <= i < k ==> s[i] != x
  {
    forall i | 0 <= i < k
      ensures s[i] != x
    {
      assert s[..k][i] == s[i];
    }
  }

  lemma WalkFirst(dir: seq<string>, c: string, rest: seq<string>)
    ensures Walk(dir, [c] + rest) == Walk(Enter(dir, c), rest)
  {
    assert ([c] + rest)[1..] == rest;
  }

  // ---------------------------------------------------------------- normal paths are normal

  lemma {:induction false} CleanJoined(dir: seq<string>)
    requires Clean(dir)
    ensures NoDoubleSlash(Dir(dir)) && '\\' !in Dir(dir)
    ensures dir != [] ==> Joined(dir)[|Joined(dir)| - 1] != '/'
    decreases |dir|
  {
    if dir == [] {
    } else {
      var up, c := dir[..|dir| - 1], dir[|dir| - 1];
      assert Plain(c);
      assert Clean(up);
      CleanJoined(up);
      DirUp(dir);
      assert up + [c] == dir;
      DirDown(up, c);
      DownKeepsSlashes(Dir(up), c);
    }
  }

  /** A plain component after a slash brings no double slash and no backslash. */
  lemma DownKeepsSlashes(s: string, c: string)
    requires s != "" && NoDoubleSlash(s) && '\\' !in s && Plain(c)
    ensures NoDoubleSlash(s + c + "/") && '\\' !in s + c + "/" && (s + c)[|s + c| - 1] != '/' && NoDoubleSlash(s + c)
  {
    Absent('/', c, |c|) by {
      assert c[..|c|] == c;
    }
    var r := s + c + "/";
    forall k | 0 < k < |r|
      ensures !(r[k - 1] == '/' && r[k] == '/')
    {
      if k < |s| {
        assert r[k - 1] == s[k - 1] && r[k] == s[k];
      } else if k < |s| + |c| {
        assert r[k] == c[k - |s|];
      } else {
        assert r[k - 1] == c[|c| - 1];
      }
    }
  }

  /** The components of a directory's path are the directory. */
  lemma {:induction false} ComponentsOfRender(dir: seq<string>, rest: string)
    requires Clean(dir)
    ensures Components(Dir(dir)[1..] + rest) == dir + Components(rest)
    decreases |dir|
  {
    if dir == [] {
      assert Dir(dir)[1..] + rest == rest;
    } else {
      var up, c := dir[..|dir| - 1], dir[|dir| - 1];
      assert Plain(c) && Clean(up);
      DirUp(dir);
      Shifted(Dir(up), c + "/", rest);
      assert Dir(up) + c + "/" == Dir(up) + (c + "/");
      hide Dir, Components;
      ComponentsOfRender(up, c + "/" + rest);
      PlainFirst(c, rest);
      Regrouped(up, c, Components(rest));
      assert up + [c] == dir;
    }
  }

  lemma PlainFirst(c: string, rest: string)
    requires c != "" && '/' !in c
    ensures Components(c + "/" + rest) == [c] + Components(rest)
  {
    var s := c + "/" + rest;
    assert s[..|c|] == c && s[|c|] == '/' && s[|c| + 1..] == rest;
    FirstComponent(s, |c|);
  }

  lemma Regrouped(up: seq<string>, c: string, cs: seq<string>)
    ensures up + ([c] + cs) == (up + [c]) + cs
  {
  }

  lemma Shifted(a: string, b: string, rest: string)
    requires a != ""
    ensures (a + b)[1..] + rest == a[1..] + (b + rest)
  {
    assert (a + b)[1..] == a[1..] + b;
  }

  lemma {:induction false} WalkPlain(dir: seq<string>, cs: seq<string>)
    requires Clean(cs)
    ensures Walk(dir, cs) == dir + cs
    decreases |cs|
  {
    if cs == [] {
      assert dir + cs == dir;
    } else {
      assert Plain(cs[0]);
      WalkPlain(Enter(dir, cs[0]), cs[1..]);
      assert dir + [cs[0]] + cs[1..] == dir + cs;
    }
  }

  /**
   * Walking through proper components keeps the directory clean and never makes its path longer than the text
   * walked.
   */
  lemma {:induction false} WalkKeepsClean(dir: seq<string>, s: string)
    requires Clean(dir) && NoDoubleSlash(s) && (s != "" ==> s[0] != '/') && '\\' !in s
    ensures Clean(Walk(dir, Components(s))) && |Dir(Walk(dir, Components(s)))| <= |Dir(dir)| + |s| + 1
    ensures s == "" || s[|s| - 1] == '/' ==> |Dir(Walk(dir, Components(s)))| <= |Dir(dir)| + |s|
    decreases |s|
  {
    if s == "" {
    } else {
      var k := FirstSlash(s);
      var c, rest := s[..k], if k < |s| then Components(s[k + 1..]) else [];
      FirstComponent(s, k);
      WalkFirst(dir, c, rest);
      EnterKeepsClean(dir, s, k);
      if k < |s| {
        var tail := s[k + 1..];
        TailKeepsSlashes(s, k);
        WalkKeepsClean(Enter(dir, c), tail);
      }
    }
  }

  lemma EnterKeepsClean(dir: seq<string>, s: string, k: nat)
    requires Clean(dir) && s != "" && s[0] != '/' && '\\' !in s && k == FirstSlash(s)
    ensures Clean(Enter(dir, s[..k])) && |Dir(Enter(dir, s[..k]))| <= |Dir(dir)| + k + 1
  {
    var c := s[..k];
    assert k > 0;
    assert '\\' !in c by {
      assert forall x :: x in c ==> x in s;
    }
    if c == ".." && dir != [] {
      DirUp(dir);
    } else if c != "." && c != ".." {
      DirDown(dir, c);
      assert Plain(c);
    }
  }

  lemma TailKeepsSlashes(s: string, k: nat)
    requires NoDoubleSlash(s) && '\\' !in s && k < |s| && s[k] == '/'
    ensures var tail := s[k + 1..]; NoDoubleSlash(tail) && (tail != "" ==> tail[0] != '/') && '\\' !in tail
  {
    var tail := s[k + 1..];
    forall i | 0 < i < |tail|
      ensures !(tail[i - 1] == '/' && tail[i] == '/')
    {
      var at := k + 1 + i;
      assert s[at - 1] == tail[i - 1] && s[at] == tail[i];
    }
    assert forall x :: x in tail ==> x in s;
  }

  /** What an acceptable path comes down to. */
  lemma NormalDirectory(path: string)
    requires Acceptable(path)
    ensures Clean(Walk([], Components(path[1..]))) && |Normal(path)| <= |path|
  {
    TailKeepsSlashes(path, 0);
    WalkKeepsClean([], path[1..]);
  }

  /**
   * A normal path is acceptable, has no slash at the end but for the root, and its components are those of the
   * directory reached.
   */
  lemma NormalIsProper(path: string)
    requires Acceptable(path)
    ensures Acceptable(Normal(path))
    ensures Normal(path) != "/" ==> Normal(path)[|Normal(path)| - 1] != '/'
    ensures Components(Normal(path)[1..]) == Walk([], Components(path[1..])) && Clean(Components(Normal(path)[1..]))
  {
    var dir := Walk([], Components(path[1..]));
    NormalDirectory(path);
    hide Walk, Components;
    if dir != [] {
      RenderIsProper(dir);
    } else {
      RootIsProper();
    }
  }

  lemma RootIsProper()
    ensures NoDoubleSlash("/") && '\\' !in "/" && Components("/"[1..]) == []
  {
  }

  lemma OneComponent(c: string)
    requires c != "" && '/' !in c
    ensures Components(c) == [c]
  {
    assert c[..|c|] == c;
    FirstComponent(c, |c|);
  }

  lemma RenderIsProper(dir: seq<string>)
    requires Clean(dir) && dir != []
    ensures var r := Joined(dir);
            && r != "" && r[0] == '/' && NoDoubleSlash(r) && '\\' !in r && r[|r| - 1] != '/' && r != "/"
            && Components(r[1..]) == dir
  {
    var up, c := dir[..|dir| - 1], dir[|dir| - 1];
    assert up + [c] == dir && Clean(up) && Plain(c);
    DirDown(up, c);
    CleanJoined(up);
    DownKeepsSlashes(Dir(up), c);
    ComponentsOfRender(up, c);
    hide Joined, Dir, Clean;
    Shifted(Dir(up), c, "");
    assert (Dir(up) + c)[1..] + "" == (Dir(up) + c)[1..] && c + "" == c;
    assert c != "" && '/' !in c;
    hide NoDoubleSlash, Plain, Components;
    OneComponent(c);
    assert forall x :: x in Dir(up) + c ==> x in Dir(up) + c + "/";
  }

  /** Normalising again changes nothing. */
  lemma NormalisingTwice(path: string)
    requires Acceptable(path)
    ensures Acceptable(Normal(path)) && Normal(Normal(path)) == Normal(path)
  {
    NormalIsProper(path);
    var cs := Components(Normal(path)[1..]);
    WalkPlain([], cs);
    assert [] + cs == cs;
    hide Walk, Components, Render, Acceptable;
  }

  // ---------------------------------------------------------------- the pass over the text

  /** The text ends or a slash stands at k. */
  predicate EndsAt(path: string, k: nat) {
    k == |path| || (k < |path| && path[k] == '/')
  }

  predicate DotAt(path: string, s: nat) {
    s < |path| && path[s] == '.' && EndsAt(path, s + 1)
  }

  predicate DotDotAt(path: string, s: nat) {
    s + 1 < |path| && path[s] == '.' && path[s + 1] == '.' && EndsAt(path, s + 2)
  }

  /** The text before read has neither a double slash nor a backslash. */
  predicate Read(path: string, read: nat) {
    read <= |path| && path != "" && path[0] == '/' && '\\' !in path[..read] && NoDoubleSlash(path[..read])
  }

  /** The directory and the component under way are written. */
  predicate Written(path: string, s: nat, read: nat, dir: seq<string>, out: string) {
    && s <= read <= |path| && Clean(dir)
    && out == Dir(dir) + path[s..read] && |out| <= read
    && '/' !in path[s..read] && (s < read ==> !DotAt(path, s) && !DotDotAt(path, s))
  }

  /** From dir the rest of the text leads where the whole text leads from the root. */
  predicate OnTheWay(path: string, s: nat, dir: seq<string>) {
    1 <= s <= |path| && Walk([], Components(path[1..])) == Walk(dir, Components(path[s..]))
  }

  function Until(path: string, i: nat): nat {
    if i <= |path| then i else |path|
  }

  /**
   * The text before i has been read, the component under way began at s, dir is the directory reached before it, and
   * out has been written. A "." or ".." at the end of the text takes i one place beyond it.
   */
  predicate Progress(path: string, i: nat, s: nat, dir: seq<string>, out: string) {
    && 1 <= s <= |path| && (if i <= |path| then s <= i && path[s - 1] == '/' else i == |path| + 1 && s == |path|)
    && Read(path, Until(path, i)) && Written(path, s, Until(path, i), dir, out) && OnTheWay(path, s, dir)
  }

  lemma ReadMore(path: string, i: nat, k: nat)
    requires i < k <= |path| && '\\' !in path[..i] && NoDoubleSlash(path[..i])
    requires forall x :: i <= x < k ==> path[x] != '\\' && (x > 0 ==> !(path[x - 1] == '/' && path[x] == '/'))
    ensures '\\' !in path[..k] && NoDoubleSlash(path[..k])
  {
    Absent('\\', path, i);
    forall x | 0 < x < k
      ensures !(path[x - 1] == '/' && path[x] == '/')
    {
      if x < i {
        assert path[..i][x - 1] == path[x - 1] && path[..i][x] == path[x];
      }
    }
  }

  lemma FirstStep(path: string)
    requires path != "" && path[0] == '/'
    ensures Progress(path, 1, 1, [], "/")
  {
    assert path[..1] == "/" && path[1..1] == "";
    assert Dir([]) + "" == "/";
  }

  /** The character before i is a slash exactly at the start of a component. */
  lemma StartOfComponent(path: string, i: nat, s: nat, dir: seq<string>, out: string)
    requires Progress(path, i, s, dir, out) && i < |path|
    ensures i > 0 && (path[i - 1] == '/' <==> i == s)
  {
    if i > s {
      assert path[s..i][i - 1 - s] == path[i - 1];
    }
  }

  lemma StepCharacter(path: string, i: nat, s: nat, dir: seq<string>, out: string)
    requires Progress(path, i, s, dir, out) && i < |path| && path[i] != '/' && path[i] != '\\'
    requires i == s ==> !DotAt(path, s) && !DotDotAt(path, s)
    ensures Progress(path, i + 1, s, dir, out + [path[i]])
  {
    hide OnTheWay, Dir, DotAt, DotDotAt, Clean;
    ReadCharacter(path, i);
    hide Read;
    assert path[s..i + 1] == path[s..i] + [path[i]];
    assert Dir(dir) + (path[s..i] + [path[i]]) == out + [path[i]];
  }

  lemma ReadCharacter(path: string, i: nat)
    requires Read(path, i) && i < |path| && path[i] != '\\' && (i > 0 ==> !(path[i - 1] == '/' && path[i] == '/'))
    ensures Read(path, i + 1)
  {
    ReadMore(path, i, i + 1);
  }

  /** The components beyond the one that ends at end. */
  function After(path: string, end: nat): seq<string> {
    if end < |path| then Components(path[end + 1..]) else []
  }

  lemma WalkOne(path: string, s: nat, end: nat, dir: seq<string>)
    requires s < end <= |path| && '/' !in path[s..end] && EndsAt(path, end)
    ensures Walk(dir, Components(path[s..])) == Walk(Enter(dir, path[s..end]), After(path, end))
  {
    var c, tail := path[s..end], path[s..];
    assert tail[..end - s] == c
           && (end < |path| ==> tail[end - s] == path[end] && tail[end - s + 1..] == path[end + 1..]);
    FirstComponent(tail, end - s);
    hide Components, Walk, FirstSlash;
    assert tail != "";
    WalkFirst(dir, c, After(path, end));
  }

  lemma PlainComponent(path: string, s: nat, end: nat)
    requires s < end <= |path| && '/' !in path[s..end] && EndsAt(path, end) && '\\' !in path[..end]
    requires !DotAt(path, s) && !DotDotAt(path, s)
    ensures Plain(path[s..end])
  {
    var c := path[s..end];
    assert forall x :: x in c ==> x in path[..end];
    assert c[0] == path[s] && (|c| > 1 ==> c[1] == path[s + 1]);
  }

  /** The component under way, once a slash or the end of the text follows it. */
  lemma ComponentDone(path: string, i: nat, s: nat, dir: seq<string>, out: string)
    requires Progress(path, i, s, dir, out) && s < i <= |path| && EndsAt(path, i)
    ensures Plain(path[s..i]) && Clean(dir + [path[s..i]])
    ensures Walk([], Components(path[1..])) == Walk(dir + [path[s..i]], After(path, i))
  {
    hide Walk, Dir, NoDoubleSlash, Components, After;
    WalkOne(path, s, i, dir);
    hide EndsAt;
    PlainComponent(path, s, i);
  }

  lemma StepSlash(path: string, i: nat, s: nat, dir: seq<string>, out: string)
    requires Progress(path, i, s, dir, out) && s < i < |path| && path[i] == '/'
    ensures Progress(path, i + 1, i + 1, dir + [path[s..i]], out + ['/'])
  {
    hide Walk, Components, Written, Read, Clean, Plain;
    ComponentDone(path, i, s, dir, out);
    StartOfComponent(path, i, s, dir, out);
    WrittenSlash(path, i, s, dir, out);
    ReadCharacter(path, i);
  }

  lemma WrittenSlash(path: string, i: nat, s: nat, dir: seq<string>, out: string)
    requires Written(path, s, i, dir, out) && s < i < |path| && Clean(dir + [path[s..i]])
    ensures Written(path, i + 1, i + 1, dir + [path[s..i]], out + ['/'])
  {
    hide Clean, DotAt, DotDotAt;
    var c := path[s..i];
    DirDown(dir, c);
    hide Dir;
    var none := path[i + 1..i + 1];
    assert none == "" && out + ['/'] == Dir(dir + [c]);
    assert Dir(dir + [c]) + none == Dir(dir + [c]);
  }

  lemma DotsRead(path: string, s: nat, n: nat)
    requires (n == 1 && DotAt(path, s)) || (n == 2 && DotDotAt(path, s))
    requires s > 0 && Read(path, s)
    ensures s + n <= |path| && '/' !in path[s..s + n] && EndsAt(path, s + n)
    ensures Read(path, Until(path, s + n + 1))
  {
    ReadMore(path, s, Until(path, s + n + 1));
  }

  /** Past a "." or "..", with or without a slash after it. */
  lemma StepDots(path: string, s: nat, n: nat, dir: seq<string>, dir': seq<string>, out: string)
    requires Progress(path, s, s, dir, out) && s < |path| && Clean(dir') && |Dir(dir')| <= |Dir(dir)|
    requires (n == 1 && DotAt(path, s)) || (n == 2 && DotDotAt(path, s))
    requires s + n <= |path| ==> dir' == Enter(dir, path[s..s + n])
    ensures Progress(path, s + n + 1, Until(path, s + n + 1), dir', Dir(dir'))
  {
    hide Walk, Clean, Enter, Components, Dir;
    DotsRead(path, s, n);
    hide Read, DotAt, DotDotAt;
    WalkOne(path, s, s + n, dir);
    var end := Until(path, s + n + 1);
    assert path[s..s] == "" && out == Dir(dir) + "";
    assert path[end..end] == "" && Dir(dir') + "" == Dir(dir');
    NothingLeft(path);
  }

  lemma NothingLeft(path: string)
    ensures path[|path|..] == "" && path[|path|..|path|] == "" && Components(path[|path|..]) == []
  {
  }

  // ---------------------------------------------------------------- the end of the pass

  /** What is left to do when the text is read: a slash at the end is dropped, except for the root. */
  lemma Finish(path: string, i: nat, s: nat, dir: seq<string>, out: string)
    requires Progress(path, i, s, dir, out) && |path| <= i && |path| <= PATH_MAX
    ensures Acceptable(path) && 0 < |out| <= |path|
    ensures if |out| > 1 && out[|out| - 1] == '/' then out[..|out| - 1] == Normal(path) && out[|out| - 2] != '/'
            else out == Normal(path)
  {
    hide Read, Acceptable, Written, OnTheWay, Normal;
    ReadAll(path);
    WrittenLength(path, s, dir, out);
    if s < |path| {
      FinishInComponent(path, s, dir, out);
    } else {
      FinishAtSlash(path, dir, out);
    }
  }

  lemma WrittenLength(path: string, s: nat, dir: seq<string>, out: string)
    requires Written(path, s, |path|, dir, out)
    ensures 0 < |out| <= |path|
  {
  }

  lemma ReadAll(path: string)
    requires Read(path, |path|) && |path| <= PATH_MAX
    ensures Acceptable(path)
  {
    assert path[..|path|] == path;
  }

  lemma FinishInComponent(path: string, s: nat, dir: seq<string>, out: string)
    requires Progress(path, |path|, s, dir, out) && s < |path|
    ensures out == Normal(path) && |out| > 1 && out[|out| - 1] != '/'
  {
    ComponentDone(path, |path|, s, dir, out);
    hide Components, NoDoubleSlash, Clean, Read, OnTheWay;
    var c := path[s..|path|];
    assert Walk(dir + [c], []) == dir + [c];
    hide Walk;
    DirDown(dir, c);
    Absent('/', c, |c|) by {
      assert c[..|c|] == c;
    }
    hide Dir, Plain;
    assert out[|out| - 1] == c[|c| - 1];
  }

  lemma FinishAtSlash(path: string, dir: seq<string>, out: string)
    requires Written(path, |path|, |path|, dir, out) && OnTheWay(path, |path|, dir)
    ensures if |out| > 1 && out[|out| - 1] == '/' then out[..|out| - 1] == Normal(path) && out[|out| - 2] != '/'
            else out == Normal(path)
  {
    NothingLeft(path);
    assert Walk(dir, []) == dir;
    hide Walk, Components;
    assert out == Dir(dir) + "" && Dir(dir) + "" == Dir(dir);
    SlashAtEnd(dir);
  }

  lemma SlashAtEnd(dir: seq<string>)
    requires Clean(dir)
    ensures dir == [] ==> Dir(dir) == Render(dir)
    ensures dir != [] ==> Dir(dir)[..|Dir(dir)| - 1] == Render(dir) && |Dir(dir)| > 1 && Dir(dir)[|Dir(dir)| - 2] != '/'
  {
    CleanJoined(dir);
  }

  /** Going up cuts the text back to the slash before the last one. */
  lemma UpIsCut(dir: seq<string>)
    requires Clean(dir) && dir != []
    ensures var up, n := Dir(dir[..|dir| - 1]), |Dir(dir)|;
            && Clean(dir[..|dir| - 1]) && 0 < |up| < n - 1 && Dir(dir)[..|up|] == up && up[|up| - 1] == '/'
            && forall k :: |up| <= k < n - 1 ==> Dir(dir)[k] != '/'
  {
    var up, c := dir[..|dir| - 1], dir[|dir| - 1];
    assert Plain(c);
    DirUp(dir);
    Absent('/', c, |c|) by {
      assert c[..|c|] == c;
    }
    hide Dir;
    forall k | |Dir(up)| <= k < |Dir(dir)| - 1
      ensures Dir(dir)[k] != '/'
    {
      assert Dir(dir)[k] == c[k - |Dir(up)|];
    }
  }

  // ---------------------------------------------------------------- the call

  /** The character at i of a text with its terminator. */
  function At(path: string, i: nat): char
    requires i <= |path|
  {
    if i < |path| then path[i] else '\0'
  }

  /** The tests for "." and "..". */
  lemma Dots(path: string, i: nat)
    requires '\0' !in path && i < |path|
    ensures At(path, i + 1) == '.' ==> i + 2 <= |path|
    ensures DotAt(path, i) <==> path[i] == '.' && (At(path, i + 1) == '\0' || At(path, i + 1) == '/')
    ensures DotDotAt(path, i) <==>
              path[i] == '.' && At(path, i + 1) == '.' && (At(path, i + 2) == '\0' || At(path, i + 2) == '/')
  {
    assert i + 1 < |path| ==> path[i + 1] in path;
    assert i + 2 < |path| ==> path[i + 2] in path;
  }

  lemma Spoiled(path: string, i: nat)
    requires i < |path| && (path[i] == '\\' || (i > 0 && path[i - 1] == '/' && path[i] == '/'))
    ensures !Acceptable(path)
  {
    assert path[i] in path;
  }

  /** A "." leaves the text written as it is. */
  lemma StayHere(path: string, i: nat, dir: seq<string>, out: string)
    requires Progress(path, i, i, dir, out) && DotAt(path, i)
    ensures Progress(path, i + 2, Until(path, i + 2), dir, out)
  {
    hide Progress, DotAt, DotDotAt, Dir, Clean, Enter;
    OutIs(path, i, dir, out);
    EnterDots(path, i, 1, dir);
    StepDots(path, i, 1, dir, dir, out);
  }

  /** A ".." cuts it back by one component, unless it is the root. */
  lemma GoUp(path: string, i: nat, dir: seq<string>, out: string)
    requires Progress(path, i, i, dir, out) && DotDotAt(path, i)
    ensures out == Dir(dir) && (|out| > 1 <==> dir != [])
    ensures dir == [] ==> Progress(path, i + 3, Until(path, i + 3), dir, out)
    ensures dir != [] ==>
              var up := Dir(dir[..|dir| - 1]);
              && Progress(path, i + 3, Until(path, i + 3), dir[..|dir| - 1], up)
              && 0 < |up| < |out| - 1 && out[..|up|] == up && up[|up| - 1] == '/'
              && forall k :: |up| <= k < |out| - 1 ==> out[k] != '/'
  {
    hide Progress, DotAt, DotDotAt, Clean, Enter, Dir;
    OutIs(path, i, dir, out);
    EnterDots(path, i, 2, dir);
    RootText();
    if dir == [] {
      StepDots(path, i, 2, dir, dir, out);
    } else {
      UpIsCut(dir);
      StepDots(path, i, 2, dir, dir[..|dir| - 1], out);
    }
  }

  lemma RootText()
    ensures Dir([]) == "/"
  {
  }

  lemma OutIs(path: string, i: nat, dir: seq<string>, out: string)
    requires Progress(path, i, i, dir, out)
    ensures out == Dir(dir) && Clean(dir)
  {
    hide Dir, Clean;
    assert path[i..i] == "" && Dir(dir) + "" == Dir(dir);
  }

  lemma EnterDots(path: string, s: nat, n: nat, dir: seq<string>)
    requires (n == 1 && DotAt(path, s)) || (n == 2 && DotDotAt(path, s))
    ensures s + n <= |path|
    ensures Enter(dir, path[s..s + n]) == if n == 1 || dir == [] then dir else dir[..|dir| - 1]
  {
    assert path[s..s + n] == if n == 1 then "." else "..";
  }

  /** How one character carries the pass on. */
  lemma StepOn(path: string, i: nat, s: nat, dir: seq<string>, out: string) returns (s': nat, dir': seq<string>)
    requires i < |path| && path[0] == '/' && path[i] != '\\'
             && (if i == 0 then out == "" else Progress(path, i, s, dir, out))
    requires i > 0 ==> !(path[i - 1] == '/' && path[i] == '/')
    requires i > 0 && path[i - 1] == '/' ==> !DotAt(path, i) && !DotDotAt(path, i)
    ensures Progress(path, i + 1, s', dir', out + [path[i]])
  {
    hide Progress, DotAt, DotDotAt;
    if i == 0 {
      s', dir' := 1, [];
      FirstStep(path);
      assert out + [path[0]] == "/";
    } else {
      StartOfComponent(path, i, s, dir, out);
      OutFits(path, i, s, dir, out);
      if path[i] == '/' {
        StepSlash(path, i, s, dir, out);
        s', dir' := i + 1, dir + [path[s..i]];
      } else {
        StepCharacter(path, i, s, dir, out);
        s', dir' := s, dir;
      }
    }
  }

  lemma OutFits(path: string, i: nat, s: nat, dir: seq<string>, out: string)
    requires Progress(path, i, s, dir, out) && i <= |path|
    ensures s <= i && |out| <= i && (i < |path| && path[i - 1] != '/' ==> i != s)
  {
  }

  /** Drop the last component written, up to the slash before it. */
  method BackUp(buf: array<char>, j: nat, ghost out: string, ghost up: string) returns (k: nat)
    requires j <= buf.Length && out == buf[..j] && 0 < |up| < j - 1 && out[..|up|] == up && up[|up| - 1] == '/'
    requires forall x :: |up| <= x < j - 1 ==> out[x] != '/'
    ensures k == |up| && buf[..k] == up
  {
    assert buf[|up| - 1] == '/' by {
      assert out[..|up|][|up| - 1] == '/';
    }
    k := j - 1;
    while buf[k - 1] != '/'
      invariant |up| <= k <= j - 1
      decreases k
    {
      k := k - 1;
    }
    assert out[k - 1] == '/';
  }

  /** One character more in the buffer. */
  method Store(buf: array<char>, j: nat, c: char, ghost out: string)
    requires j < buf.Length && out == buf[..j]
    modifies buf
    ensures buf[..j + 1] == out + [c]
  {
    buf[j] := c;
    assert buf[..j] == out;
  }

  /** Drop the slashes at the end, except for the root. */
  method Trim(buf: array<char>, j: nat, ghost out: string, ghost trimmed: string) returns (k: nat)
    requires 0 < j <= buf.Length && out == buf[..j]
    requires if j > 1 && out[j - 1] == '/' then out[..j - 1] == trimmed && out[j - 2] != '/' else out == trimmed
    ensures k <= j && buf[..k] == trimmed
  {
    k := j;
    if j > 1 {
      while buf[k - 1] == '/'
        invariant j - 1 <= k <= j && (k < j ==> out[j - 1] == '/')
        decreases k
      {
        assert out[k - 1] == buf[k - 1];
        k := k - 1;
      }
      assert out[k - 1] == buf[k - 1];
    }
  }

  /** Pass over a "." or ".." at the start of a component; nothing happens elsewhere. */
  method SkipDots(path: string, buf: array<char>, i0: nat, j0: nat, ghost s: nat, ghost dir: seq<string>,
                  ghost out: string)
    returns (skipped: bool, i: nat, j: nat, ghost dir': seq<string>, ghost out': string)
    requires '\0' !in path && i0 < |path| && path[0] == '/' && j0 <= buf.Length && out == buf[..j0]
    requires i0 > 0 ==> Progress(path, i0, s, dir, out)
    ensures skipped ==>
              Progress(path, i, Until(path, i), dir', out') && i0 < i <= |path| + 1 && j <= j0 && out' == buf[..j]
    ensures skipped <==> i0 > 0 && path[i0 - 1] == '/' && (DotAt(path, i0) || DotDotAt(path, i0))
    ensures skipped ==> i == i0 + if DotAt(path, i0) then 2 else 3
    ensures !skipped ==> i == i0 && j == j0 && dir' == dir && out' == out
  {
    hide Progress, Dir, DotAt, DotDotAt, At, Until, Clean;
    skipped, i, j, dir', out' := false, i0, j0, dir, out;
    Dots(path, i);
    if path[i] == '.' && path[i - 1] == '/' {
      StartOfComponent(path, i, s, dir, out);
      if At(path, i + 1) == '\0' || At(path, i + 1) == '/' {
        StayHere(path, i, dir, out);
        skipped, i := true, i + 2;
      } else if At(path, i + 1) == '.' && (At(path, i + 2) == '\0' || At(path, i + 2) == '/') {
        GoUp(path, i, dir, out);
        skipped, i := true, i + 3;
        if j > 1 {
          dir' := dir[..|dir| - 1];
          out' := Dir(dir');
          j := BackUp(buf, j, out, out');
        }
      }
    }
  }

  /** The text before i is read and out is written; nothing is when i is zero. */
  predicate Underway(path: string, i: nat, s: nat, dir: seq<string>, out: string) {
    if i == 0 then out == "" else Progress(path, i, s, dir, out)
  }

  /** One round of the pass: false, and the empty string in the buffer, at a double slash or a backslash. */
  method Advance(path: string, buf: array<char>, i0: nat, j0: nat, ghost s: nat, ghost dir: seq<string>,
                 ghost out: string)
    returns (valid: bool, i: nat, j: nat, ghost s': nat, ghost dir': seq<string>, ghost out': string)
    requires '\0' !in path && i0 < |path| <= PATH_MAX < buf.Length && path[0] == '/'
    requires j0 <= i0 && out == buf[..j0] && Underway(path, i0, s, dir, out)
    modifies buf
    ensures valid ==> i0 < i <= |path| + 1 && j < buf.Length && out' == buf[..j] && Underway(path, i, s', dir', out')
    ensures valid && i < |path| ==> j <= i
    ensures !valid ==> !Acceptable(path) && buf[0] == '\0'
  {
    hide Progress, Acceptable, DotAt, DotDotAt, Until;
    valid, i, j, s', dir', out' := true, i0, j0, s, dir, out;
    if i > 0 {
      if path[i - 1] == '/' && path[i] == '/' {
        buf[0] := '\0';
        Spoiled(path, i);
        valid := false;
        return;
      }
    }
    var skipped;
    skipped, i, j, dir', out' := SkipDots(path, buf, i, j, s, dir, out);
    if skipped {
      s' := Until(path, i);
      LengthFits(path, i, s', dir', out');
      return;
    }
    if path[i] == '\\' {
      buf[0] := '\0';
      Spoiled(path, i);
      valid := false;
      return;
    }
    s', dir' := StepOn(path, i, s, dir, out);
    Store(buf, j, path[i], out);
    out' := out + [path[i]];
    i, j := i + 1, j + 1;
  }

  lemma LengthFits(path: string, i: nat, s: nat, dir: seq<string>, out: string)
    requires Progress(path, i, s, dir, out)
    ensures |out| <= Until(path, i) <= |path| && (i <= |path| ==> Until(path, i) == i)
  {
  }

  /**
   * Normalise a path into a buffer of at least 256 characters. An empty text and an unacceptable one leave the empty
   * string there, one that is too long leaves the buffer as it is.
   */
  method Normalize(path: string, buf: array<char>) returns (ok: bool)
    requires '\0' !in path && buf.Length > PATH_MAX
    modifies buf
    ensures ok <==> Acceptable(path)
    ensures ok <==> 1 <= |path| <= 255 && path[0] == '/' && '\\' !in path
                    && forall k :: 0 < k < |path| ==> !(path[k - 1] == '/' && path[k] == '/')
    ensures ok ==> |Normal(path)| < buf.Length && buf[..|Normal(path)|] == Normal(path) && buf[|Normal(path)|] == '\0'
    ensures !ok && |path| <= PATH_MAX ==> buf[0] == '\0'
    ensures |path| > PATH_MAX ==> buf[..] == old(buf[..])
  {
    var len := |path|;
    if len == 0 {
      buf[0] := '\0';
      return false;
    }
    if len > PATH_MAX {
      return false;
    }
    if path[0] != '/' {
      buf[0] := '\0';
      return false;
    }
    var i: nat, j: nat := 0, 0;
    ghost var s: nat, dir: seq<string>, out: string := 0, [], "";
    assert Underway(path, i, s, dir, out);
    hide Progress, Normal, Acceptable;
    while i < len
      invariant j < buf.Length && out == buf[..j] && (i < len ==> j <= i) && Underway(path, i, s, dir, out)
      decreases len + 1 - i
    {
      var valid;
      valid, i, j, s, dir, out := Advance(path, buf, i, j, s, dir, out);
      if !valid {
        return false;
      }
    }
    Finish(path, i, s, dir, out);
    j := Trim(buf, j, out, Normal(path));
    buf[j] := '\0';
    assert buf[..j] == Normal(path);
    ok := true;
  }
}
