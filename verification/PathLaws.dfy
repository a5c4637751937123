/** What normalising means, told on texts alone: laws that leave no choice of the result. */
module PathLaws {
  import opened Path

  /** A path with one component more. */
  function Into(path: string, c: string): string {
    if path != "" && path[|path| - 1] == '/' then path + c else path + "/" + c
  }

  /** A path text: from the root, no empty components, no backslash. */
  predicate Wellformed(path: string) {
    path != "" && path[0] == '/' && NoDoubleSlash(path) && '\\' !in path
  }

  predicate Component(c: string) {
    c != "" && '/' !in c
  }

  lemma SlashFound(s: string)
    requires s != "" && s[|s| - 1] == '/'
    ensures FirstSlash(s) < |s|
  {
    assert s[..|s|] == s && s[|s| - 1] in s;
    hide FirstSlash;
  }

  lemma {:induction false} ComponentsAppended(s: string, c: string)
    requires Component(c) && (s == "" || s[|s| - 1] == '/')
    ensures Components(s + c) == Components(s) + [c]
    decreases |s|
  {
    hide Components, FirstSlash;
    if s == "" {
      assert s + c == c;
      NoComponents();
      OneComponent(c);
    } else {
      var k := FirstSlash(s);
      SlashFound(s);
      var tail := s[k + 1..];
      SplitAt(s, c, k);
      FirstComponent(s + c, k);
      FirstComponent(s, k);
      assert tail == "" || tail[|tail| - 1] == '/';
      ComponentsAppended(tail, c);
      assert [s[..k]] + (Components(tail) + [c]) == [s[..k]] + Components(tail) + [c];
    }
  }

  lemma SplitAt(s: string, c: string, k: nat)
    requires k < |s|
    ensures (s + c)[..k] == s[..k] && (s + c)[k] == s[k] && (s + c)[k + 1..] == s[k + 1..] + c
  {
  }

  lemma {:induction false} SlashAtTheEnd(s: string)
    requires s != "" && s[|s| - 1] != '/'
    ensures Components(s + "/") == Components(s)
    decreases |s|
  {
    hide Components, FirstSlash;
    var k := FirstSlash(s);
    assert (s + "/")[..k] == s[..k];
    FirstComponent(s, k);
    FirstComponent(s + "/", k);
    if k == |s| {
      assert (s + "/")[k + 1..] == "";
      NoComponents();
    } else {
      assert (s + "/")[k + 1..] == s[k + 1..] + "/";
      SlashAtTheEnd(s[k + 1..]);
    }
  }

  lemma NoComponents()
    ensures Components("") == []
  {
  }

  lemma ComponentsInto(path: string, c: string)
    requires Wellformed(path) && Component(c)
    ensures Into(path, c) != "" && Into(path, c)[0] == '/'
    ensures Components(Into(path, c)[1..]) == Components(path[1..]) + [c]
  {
    var s := path[1..];
    assert s == "" || s[|s| - 1] == path[|path| - 1];
    hide Components, NoDoubleSlash;
    if s == "" || s[|s| - 1] == '/' {
      assert (path + c)[1..] == s + c;
      ComponentsAppended(s, c);
    } else {
      assert (path + "/" + c)[1..] == s + "/" + c;
      ComponentsAppended(s + "/", c);
      SlashAtTheEnd(s);
    }
  }

  lemma {:induction false} WalkLast(dir: seq<string>, cs: seq<string>, c: string)
    ensures Walk(dir, cs + [c]) == Enter(Walk(dir, cs), c)
    decreases |cs|
  {
    if cs == [] {
      assert cs + [c] == [c];
    } else {
      assert (cs + [c])[1..] == cs[1..] + [c];
      WalkLast(Enter(dir, cs[0]), cs[1..], c);
    }
  }

  /** The directory a path comes down to, and one component more. */
  lemma NormalInto(path: string, c: string)
    requires Wellformed(path) && Component(c)
    ensures Into(path, c) != "" && Clean(Walk([], Components(path[1..])))
    ensures Normal(Into(path, c)) == Render(Enter(Walk([], Components(path[1..])), c))
  {
    ComponentsInto(path, c);
    WalkLast([], Components(path[1..]), c);
    TailKeepsSlashes(path, 0);
    WalkKeepsClean([], path[1..]);
    hide Components, Walk, Render, Enter;
  }

  lemma RenderInto(dir: seq<string>, c: string)
    requires Clean(dir) && c != ""
    ensures Render(dir + [c]) == Into(Render(dir), c)
  {
    DirDown(dir, c);
    CleanJoined(dir);
    hide Clean;
  }

  lemma IntoWellformed(path: string, c: string)
    requires Wellformed(path) && Component(c) && '\\' !in c
    ensures Wellformed(Into(path, c)) && Into(path, c)[|Into(path, c)| - 1] != '/'
  {
    assert c[|c| - 1] in c;
    assert forall k :: 0 <= k < |c| ==> c[k] in c;
  }

  /** "." stays. */
  lemma DotStays(path: string)
    requires Wellformed(path)
    ensures Normal(Into(path, ".")) == Normal(path)
  {
    NormalInto(path, ".");
    hide Components, Walk;
  }

  /** A plain component goes down: it is added to the normal path. */
  lemma PlainGoesDown(path: string, c: string)
    requires Wellformed(path) && Plain(c)
    ensures Normal(Into(path, c)) == Into(Normal(path), c)
  {
    NormalInto(path, c);
    hide Components, Walk, Render;
    RenderInto(Walk([], Components(path[1..])), c);
  }

  /** ".." takes back the plain component before it, and at the root it stays. */
  lemma DotDotGoesUp(path: string, c: string)
    requires Wellformed(path) && Plain(c)
    ensures Into(path, c) != "" && Normal(Into(Into(path, c), "..")) == Normal(path)
    ensures Normal(path) == "/" ==> Normal(Into(path, "..")) == "/"
  {
    NormalInto(path, "..");
    NormalInto(path, c);
    IntoWellformed(path, c);
    NormalInto(Into(path, c), "..");
    ComponentsInto(path, c);
    WalkLast([], Components(path[1..]), c);
    var dir := Walk([], Components(path[1..]));
    assert (dir + [c])[..|dir|] == dir;
    if dir != [] {
      RenderIsProper(dir);
    }
    hide Components, Walk, Into;
  }

  /** What comes before a component counts only by its normal form. */
  lemma PrefixCounts(path: string, c: string)
    requires Acceptable(path) && Component(c)
    ensures Normal(path) != "" && Normal(Into(path, c)) == Normal(Into(Normal(path), c))
  {
    NormalIsProper(path);
    NormalInto(path, c);
    NormalInto(Normal(path), c);
    var cs := Components(Normal(path)[1..]);
    WalkPlain([], cs);
    assert [] + cs == cs;
    hide Components, Walk, Into, Render, Enter, Normal;
  }

  /** A slash at the end counts for nothing, and the root is normal. */
  lemma SlashCountsNot(path: string)
    requires Wellformed(path) && path[|path| - 1] != '/'
    ensures Normal(path + "/") == Normal(path) && Normal("/") == "/"
  {
    var s := path[1..];
    assert (path + "/")[1..] == s + "/" && path != "/" && s[|s| - 1] == path[|path| - 1];
    hide Components, Walk, Render, NoDoubleSlash;
    SlashAtTheEnd(s);
    RootNormal();
  }

  lemma RootNormal()
    ensures Normal("/") == "/"
  {
    NoComponents();
  }
}
