/**
 Lexical cleaning of Unix path names: `File::CleanUnixPath`.

 The specification is a fold of a stack over the '/'-separated components of a path
 (the rules of "Lexical File Names in Plan 9 or Getting Dot-Dot Right"). The meaning of
 a path is the directory it leads to, as a function of the directory it starts from.
 */
module LexicalPath {

  const NUL := '\0'

  // ---------- Components ----------

  predicate NoSlash(s: string) {
    forall i :: 0 <= i < |s| ==> s[i] != '/'
  }

  function FirstSlash(s: string): (k: nat)
    ensures k <= |s|
    ensures NoSlash(s[..k])
    ensures k < |s| ==> s[k] == '/'
  {
    if s == "" || s[0] == '/' then 0 else
    var k := 1 + FirstSlash(s[1..]);
    assert forall i :: 0 < i < k ==> s[i] == s[1..][i - 1];
    k
  }

  /** The components of a path; two adjacent separators enclose an empty one. */
  function Split(s: string): (components: seq<string>)
    ensures |components| > 0
  {
    var k := FirstSlash(s);
    if k == |s| then [s] else [s[..k]] + Split(s[k + 1..])
  }

  // ---------- The stack fold ----------

  function Step(rooted: bool, stack: seq<string>, c: string): seq<string> {
    if c == "" || c == "." then stack
    else if c != ".." then stack + [c]
    else if stack != [] && stack[|stack| - 1] != ".." then stack[..|stack| - 1]
    else if rooted then stack
    else stack + [c]
  }

  function Fold(rooted: bool, stack: seq<string>, components: seq<string>): seq<string>
    decreases |components|
  {
    if components == [] then stack
    else Fold(rooted, Step(rooted, stack, components[0]), components[1..])
  }

  function Join(stack: seq<string>): string {
    if stack == [] then ""
    else if |stack| == 1 then stack[0]
    else Join(stack[..|stack| - 1]) + "/" + stack[|stack| - 1]
  }

  function Render(rooted: bool, stack: seq<string>): string {
    (if rooted then "/" else "") + Join(stack)
  }

  predicate Rooted(s: string) {
    s != "" && s[0] == '/'
  }

  function Clean(s: string): string {
    var r := Render(Rooted(s), Fold(Rooted(s), [], Split(s)));
    if r == "" then "." else r
  }

  // ---------- Canonical stacks ----------

  predicate IsComponent(c: string) {
    c != "" && c != "." && NoSlash(c)
  }

  predicate IsName(c: string) {
    IsComponent(c) && c != ".."
  }

  /** Some ".." (none in a rooted path), then names. */
  predicate CanonicalStack(rooted: bool, stack: seq<string>) {
    && (forall i :: 0 <= i < |stack| ==> IsComponent(stack[i]))
    && (forall i :: 0 <= i < |stack| && stack[i] == ".." ==> !rooted)
    && (forall i, j :: 0 <= i < j < |stack| && stack[j] == ".." ==> stack[i] == "..")
  }

  /** The number of ".." at the front. */
  function Ups(stack: seq<string>): (k: nat)
    ensures k <= |stack|
    ensures forall i :: 0 <= i < k ==> stack[i] == ".."
    ensures k < |stack| ==> stack[k] != ".."
  {
    if stack == [] || stack[0] != ".." then 0 else
    var k := 1 + Ups(stack[1..]);
    assert forall i :: 0 < i < k ==> stack[i] == stack[1..][i - 1];
    k
  }

  lemma StepCanonical(rooted: bool, stack: seq<string>, c: string)
    requires CanonicalStack(rooted, stack) && NoSlash(c)
    ensures CanonicalStack(rooted, Step(rooted, stack, c))
  {
  }

  lemma SplitNoSlash(s: string)
    ensures forall i :: 0 <= i < |Split(s)| ==> NoSlash(Split(s)[i])
    decreases |s|
  {
    var k := FirstSlash(s);
    if k < |s| {
      SplitNoSlash(s[k + 1..]);
    }
  }

  lemma {:induction false} FoldCanonical(rooted: bool, stack: seq<string>, components: seq<string>)
    requires CanonicalStack(rooted, stack)
    requires forall i :: 0 <= i < |components| ==> NoSlash(components[i])
    ensures CanonicalStack(rooted, Fold(rooted, stack, components))
    decreases |components|
  {
    if components != [] {
      StepCanonical(rooted, stack, components[0]);
      FoldCanonical(rooted, Step(rooted, stack, components[0]), components[1..]);
    }
  }

  /** The stack that `Clean` renders. */
  function CleanStack(s: string): seq<string> {
    Fold(Rooted(s), [], Split(s))
  }

  lemma CleanStackCanonical(s: string)
    ensures CanonicalStack(Rooted(s), CleanStack(s))
  {
    SplitNoSlash(s);
    FoldCanonical(Rooted(s), [], Split(s));
  }

  // ---------- Splitting what was consumed and what was joined ----------

  lemma {:induction false} FirstSlashAt(c: string, r: string)
    requires NoSlash(c) && (r == "" || r[0] == '/')
    ensures FirstSlash(c + r) == |c|
  {
    if c != "" {
      FirstSlashAt(c[1..], r);
      assert (c + r)[1..] == c[1..] + r;
    }
  }

  lemma SplitConsume(c: string, r: string)
    requires NoSlash(c) && (r == "" || r[0] == '/')
    ensures Split(c + r) == if r == "" then [c] else [c] + Split(r[1..])
  {
    FirstSlashAt(c, r);
    assert (c + r)[..|c|] == c;
    if r != "" {
      assert (c + r)[|c| + 1..] == r[1..];
    } else {
      assert c + r == c;
    }
  }

  lemma FoldConsume(rooted: bool, stack: seq<string>, c: string, r: string)
    requires NoSlash(c) && (r == "" || r[0] == '/')
    ensures Fold(rooted, stack, Split(c + r)) == Fold(rooted, Step(rooted, stack, c), Split(r))
  {
    SplitConsume(c, r);
    SplitConsume("", r);
    assert "" + r == r;
    if r == "" {
      assert [c][1..] == [];
      assert [""][1..] == [];
    } else {
      assert ([c] + Split(r[1..]))[1..] == Split(r[1..]);
      assert ([""] + Split(r[1..]))[1..] == Split(r[1..]);
    }
  }

  lemma {:induction false} SplitAppend(a: string, c: string)
    requires NoSlash(c)
    ensures Split(a + "/" + c) == Split(a) + [c]
    decreases |a|
  {
    hide FirstSlash, NoSlash, Split;
    var k := FirstSlash(a);
    var h, t := a[..k], a[k..];
    var u := t + "/" + c;
    assert a == h + t && a + "/" + c == h + u;
    SplitConsume(h, t);
    SplitConsume(h, u);
    if t == "" {
      assert u[1..] == c;
      SplitConsume(c, "");
      assert c + "" == c;
    } else {
      var rest := t[1..];
      SplitAppend(rest, c);
      assert u[1..] == rest + "/" + c;
      assert [h] + (Split(rest) + [c]) == ([h] + Split(rest)) + [c];
    }
  }

  lemma {:induction false} SplitJoin(stack: seq<string>)
    requires stack != [] && forall i :: 0 <= i < |stack| ==> NoSlash(stack[i])
    ensures Split(Join(stack)) == stack
    decreases |stack|
  {
    var n := |stack| - 1;
    if n == 0 {
      SplitConsume(stack[0], "");
      assert stack[0] + "" == stack[0];
    } else {
      SplitJoin(stack[..n]);
      SplitAppend(Join(stack[..n]), stack[n]);
    }
  }

  lemma JoinPush(stack: seq<string>, c: string)
    ensures Join(stack + [c]) == if stack == [] then c else Join(stack) + "/" + c
  {
    assert (stack + [c])[..|stack|] == stack;
  }

  lemma {:induction false} FoldSnoc(rooted: bool, stack: seq<string>, cs: seq<string>, c: string)
    ensures Fold(rooted, stack, cs + [c]) == Step(rooted, Fold(rooted, stack, cs), c)
    decreases |cs|
  {
    if cs != [] {
      assert (cs + [c])[1..] == cs[1..] + [c];
      FoldSnoc(rooted, Step(rooted, stack, cs[0]), cs[1..], c);
    } else {
      assert (cs + [c])[1..] == [];
    }
  }

  /** Folding a canonical stack rebuilds it. */
  lemma {:induction false} FoldRebuilds(rooted: bool, stack: seq<string>)
    requires CanonicalStack(rooted, stack)
    ensures Fold(rooted, [], stack) == stack
    decreases |stack|
  {
    if stack != [] {
      var n := |stack| - 1;
      FoldRebuilds(rooted, stack[..n]);
      FoldSnoc(rooted, [], stack[..n], stack[n]);
      assert stack == stack[..n] + [stack[n]];
      if stack[n] == ".." && n > 0 {
        assert stack[n - 1] == "..";
      }
    }
  }

  lemma JoinNonEmpty(stack: seq<string>)
    requires stack != [] && forall i :: 0 <= i < |stack| ==> IsComponent(stack[i])
    ensures Join(stack) != "" && Join(stack)[0] != '/'
    decreases |stack|
  {
    if |stack| > 1 {
      JoinNonEmpty(stack[..|stack| - 1]);
    }
  }

  /** Reading back a rendered canonical stack: its root marker and its components. */
  lemma RenderReadsBack(rooted: bool, stack: seq<string>)
    requires CanonicalStack(rooted, stack)
    ensures var r := Render(rooted, stack);
            var p := if r == "" then "." else r;
            Rooted(p) == rooted && CleanStack(p) == stack && Clean(p) == p
  {
    FoldRebuilds(rooted, stack);
    if stack == [] {
      RenderEmptyReadsBack();
    } else {
      hide Fold, Step, Join, CanonicalStack, FirstSlash, NoSlash;
      var j := Join(stack);
      JoinNonEmpty(stack);
      SplitJoin(stack);
      if rooted {
        SplitConsume("", "/" + j);
        assert "" + ("/" + j) == "/" + j && ("/" + j)[1..] == j;
        FoldSkipsEmpty(stack);
      } else {
        assert Render(rooted, stack) == j;
      }
    }
  }

  lemma FoldSkipsEmpty(cs: seq<string>)
    ensures Fold(true, [], [""] + cs) == Fold(true, [], cs)
  {
    assert ([""] + cs)[1..] == cs;
  }

  lemma RenderEmptyReadsBack()
    ensures CleanStack("/") == [] && Clean("/") == "/" && CleanStack(".") == [] && Clean(".") == "."
  {
    SplitConsume("", "/");
    assert "" + "/" == "/" && "/"[1..] == "";
    SplitConsume("", "");
    assert "" + "" == "";
    assert Split("/") == ["", ""];
    assert Split("/")[1..] == [""] && [""][1..] == [];
    SplitConsume(".", "");
    assert "." + "" == ".";
    assert ["."][1..] == [];
  }

  // ---------- Canonical form and idempotence ----------

  /** What a clean path looks like, said of its text alone. */
  predicate IsCanonical(p: string) {
    || p == "."
    || p == "/"
    || (Rooted(p) && CanonicalStack(true, Split(p[1..])))
    || (!Rooted(p) && CanonicalStack(false, Split(p)))
  }

  /** Cleaning gives a canonical path, and leaves exactly the canonical paths alone. */
  lemma CleanIsCanonical(s: string)
    ensures IsCanonical(Clean(s))
    ensures Clean(s) == s <==> IsCanonical(s)
  {
    var rooted, stack := Rooted(s), CleanStack(s);
    CleanStackCanonical(s);
    RenderReadsBack(rooted, stack);
    if stack != [] {
      SplitJoin(stack);
      JoinNonEmpty(stack);
      assert rooted ==> ("/" + Join(stack))[1..] == Join(stack);
      assert !rooted ==> "" + Join(stack) == Join(stack);
    }
    if IsCanonical(s) {
      CanonicalIsClean(s);
    }
  }

  lemma CanonicalIsClean(s: string)
    requires IsCanonical(s)
    ensures Clean(s) == s
  {
    if s == "." {
      RenderReadsBack(false, []);
    } else if s == "/" {
      RenderReadsBack(true, []);
      assert Render(true, []) == "/";
    } else if Rooted(s) {
      JoinSplit(s[1..]);
      RenderReadsBack(true, Split(s[1..]));
      assert "/" + s[1..] == s;
    } else {
      JoinSplit(s);
      RenderReadsBack(false, Split(s));
      JoinNonEmpty(Split(s));
      assert "" + s == s;
    }
  }

  lemma {:induction false} JoinSplit(s: string)
    ensures Join(Split(s)) == s
    decreases |s|
  {
    hide FirstSlash, NoSlash, Join;
    var k := FirstSlash(s);
    if k < |s| {
      var t := s[k + 1..];
      JoinSplit(t);
      JoinCons(s[..k], Split(t));
      assert s == s[..k] + "/" + t;
    } else {
      JoinPush([], s);
      assert [] + [s] == [s];
    }
  }

  lemma {:induction false} JoinCons(c: string, stack: seq<string>)
    requires stack != []
    ensures Join([c] + stack) == c + "/" + Join(stack)
    decreases |stack|
  {
    hide Join;
    var n := |stack| - 1;
    assert stack == stack[..n] + [stack[n]] && [c] + stack == ([c] + stack[..n]) + [stack[n]];
    JoinPush(stack[..n], stack[n]);
    JoinPush([c] + stack[..n], stack[n]);
    if n > 0 {
      JoinCons(c, stack[..n]);
    } else {
      JoinPush([], c);
      assert [c] + stack[..0] == [] + [c];
    }
  }

  /** Cleaning twice equals cleaning once. */
  lemma CleanIdempotent(s: string)
    ensures Clean(Clean(s)) == Clean(s)
  {
    CleanStackCanonical(s);
    RenderReadsBack(Rooted(s), CleanStack(s));
  }

  // ---------- Meaning ----------

  /** A directory is the list of names from the root; the parent of the root is the root. */
  function Walk(dir: seq<string>, components: seq<string>): seq<string>
    decreases |components|
  {
    if components == [] then dir
    else Walk(WalkOne(dir, components[0]), components[1..])
  }

  function WalkOne(dir: seq<string>, c: string): seq<string> {
    if c == "" || c == "." then dir
    else if c == ".." then (if dir == [] then [] else dir[..|dir| - 1])
    else dir + [c]
  }

  function Resolve(start: seq<string>, path: string): seq<string> {
    Walk(if Rooted(path) then [] else start, Split(path))
  }

  lemma {:induction false} WalkSnoc(dir: seq<string>, cs: seq<string>, c: string)
    ensures Walk(dir, cs + [c]) == WalkOne(Walk(dir, cs), c)
    decreases |cs|
  {
    if cs != [] {
      assert (cs + [c])[1..] == cs[1..] + [c];
      WalkSnoc(WalkOne(dir, cs[0]), cs[1..], c);
    } else {
      assert (cs + [c])[1..] == [];
    }
  }

  /** Pushing or popping a component moves the stack's meaning by that component. */
  lemma StepMeaning(rooted: bool, start: seq<string>, stack: seq<string>, c: string)
    requires CanonicalStack(rooted, stack) && NoSlash(c)
    requires rooted ==> start == []
    ensures Walk(start, Step(rooted, stack, c)) == WalkOne(Walk(start, stack), c)
  {
    WalkSnoc(start, stack, c);
    if c == ".." && stack != [] {
      var n := |stack| - 1;
      WalkSnoc(start, stack[..n], stack[n]);
      assert stack == stack[..n] + [stack[n]];
    }
  }

  lemma {:induction false} FoldMeaning(rooted: bool, start: seq<string>, stack: seq<string>, cs: seq<string>)
    requires CanonicalStack(rooted, stack)
    requires forall i :: 0 <= i < |cs| ==> NoSlash(cs[i])
    requires rooted ==> start == []
    ensures Walk(start, Fold(rooted, stack, cs)) == Walk(Walk(start, stack), cs)
    decreases |cs|
  {
    if cs != [] {
      StepCanonical(rooted, stack, cs[0]);
      StepMeaning(rooted, start, stack, cs[0]);
      FoldMeaning(rooted, start, Step(rooted, stack, cs[0]), cs[1..]);
    }
  }

  lemma ResolveIsWalk(start: seq<string>, s: string)
    ensures Resolve(start, s) == Walk(if Rooted(s) then [] else start, CleanStack(s))
  {
    SplitNoSlash(s);
    FoldMeaning(Rooted(s), if Rooted(s) then [] else start, [], Split(s));
  }

  /** From every starting directory, a path and its clean form lead to the same place. */
  lemma CleanPreservesMeaning(s: string, start: seq<string>)
    ensures Resolve(start, Clean(s)) == Resolve(start, s)
  {
    CleanStackCanonical(s);
    RenderReadsBack(Rooted(s), CleanStack(s));
    ResolveIsWalk(start, s);
    ResolveIsWalk(start, Clean(s));
  }

  // ---------- Completeness: equal meaning, equal clean form ----------

  ghost predicate SameMeaning(s: string, t: string) {
    forall start: seq<string> :: Resolve(start, s) == Resolve(start, t)
  }

  lemma {:induction false} WalkNames(dir: seq<string>, names: seq<string>)
    requires forall i :: 0 <= i < |names| ==> IsName(names[i])
    ensures Walk(dir, names) == dir + names
    decreases |names|
  {
    if names != [] {
      WalkNames(dir + [names[0]], names[1..]);
    }
  }

  /** Up `u` levels, and down by the rest of the stack. */
  function Climb(dir: seq<string>, stack: seq<string>, u: nat): seq<string>
    requires u <= |dir| && u <= |stack|
  {
    dir[..|dir| - u] + stack[u..]
  }

  /** A canonical stack climbs `Ups` levels and then descends by its names. */
  lemma {:induction false} WalkCanonical(rooted: bool, dir: seq<string>, stack: seq<string>)
    requires CanonicalStack(rooted, stack) && Ups(stack) <= |dir|
    ensures Walk(dir, stack) == Climb(dir, stack, Ups(stack))
    decreases |stack|
  {
    hide CanonicalStack, Ups, Walk, Climb;
    CanonicalFront(rooted, stack);
    if stack != [] && stack[0] == ".." {
      WalkCanonical(rooted, dir[..|dir| - 1], stack[1..]);
      ClimbOnce(dir, stack, Ups(stack[1..]));
      WalkUp(dir, stack);
    } else {
      WalkNames(dir, stack);
      ClimbNot(dir, stack);
    }
  }

  lemma WalkUp(dir: seq<string>, stack: seq<string>)
    requires stack != [] && stack[0] == ".." && dir != []
    ensures Walk(dir, stack) == Walk(dir[..|dir| - 1], stack[1..])
  {
  }

  /** A canonical stack starts with a dot-dot or has only names. */
  lemma CanonicalFront(rooted: bool, stack: seq<string>)
    requires CanonicalStack(rooted, stack)
    ensures if stack != [] && stack[0] == ".."
            then CanonicalStack(rooted, stack[1..]) && Ups(stack) == 1 + Ups(stack[1..])
            else Ups(stack) == 0 && forall i :: 0 <= i < |stack| ==> IsName(stack[i])
  {
    assert forall i :: 0 < i < |stack| && stack[i] == ".." ==> stack[0] == "..";
  }

  lemma ClimbOnce(dir: seq<string>, stack: seq<string>, u: nat)
    requires u < |dir| && u < |stack|
    ensures Climb(dir[..|dir| - 1], stack[1..], u) == Climb(dir, stack, u + 1)
  {
  }

  lemma ClimbNot(dir: seq<string>, stack: seq<string>)
    ensures Climb(dir, stack, 0) == dir + stack
  {
  }

  /** `n` copies of a name. */
  function Deep(n: nat, name: string): (d: seq<string>)
    ensures |d| == n && forall i :: 0 <= i < n ==> d[i] == name
  {
    seq(n, i => name)
  }

  function LongName(n: nat): (s: string)
    ensures |s| == n
  {
    seq(n, i => 'x')
  }

  /** From a deep enough directory of equal names, how much of it remains tells how far the path climbs. */
  lemma WalkKeepsPrefix(stack: seq<string>, dir: seq<string>, name: string)
    requires CanonicalStack(false, stack) && Ups(stack) <= |dir|
    requires forall i :: 0 <= i < |dir| ==> dir[i] == name
    requires forall i :: 0 <= i < |stack| ==> stack[i] != name
    ensures var x, m := Walk(dir, stack), |dir| - Ups(stack);
            && |x| >= m
            && (forall i :: 0 <= i < m ==> x[i] == name)
            && (m < |x| ==> x[m] != name)
            && x[m..] == stack[Ups(stack)..]
  {
    WalkCanonical(false, dir, stack);
  }

  lemma RunLengthUnique(x: seq<string>, m: nat, n: nat, name: string)
    requires m <= |x| && n <= |x|
    requires forall i :: 0 <= i < m ==> x[i] == name
    requires forall i :: 0 <= i < n ==> x[i] == name
    requires m < |x| ==> x[m] != name
    requires n < |x| ==> x[n] != name
    ensures m == n
  {
  }

  lemma RelativeStacksAgree(a: seq<string>, b: seq<string>, dir: seq<string>, name: string)
    requires CanonicalStack(false, a) && CanonicalStack(false, b)
    requires Ups(a) <= |dir| && Ups(b) <= |dir|
    requires forall i :: 0 <= i < |dir| ==> dir[i] == name
    requires forall i :: 0 <= i < |a| ==> a[i] != name
    requires forall i :: 0 <= i < |b| ==> b[i] != name
    requires Walk(dir, a) == Walk(dir, b)
    ensures a == b
  {
    hide Walk, CanonicalStack, Ups;
    WalkKeepsPrefix(a, dir, name);
    WalkKeepsPrefix(b, dir, name);
    var j, x := Ups(a), Walk(dir, a);
    RunLengthUnique(x, |dir| - j, |dir| - Ups(b), name);
    assert a[j..] == x[|dir| - j..] == b[j..];
    StackForm(a);
    StackForm(b);
  }

  lemma StackForm(stack: seq<string>)
    ensures stack == Deep(Ups(stack), "..") + stack[Ups(stack)..]
  {
  }

  lemma RootedAndRelativeDiffer(a: seq<string>, b: seq<string>, dir: seq<string>, name: string)
    requires CanonicalStack(true, a) && CanonicalStack(false, b)
    requires |dir| > |b| && forall i :: 0 <= i < |dir| ==> dir[i] == name
    requires forall i :: 0 <= i < |a| ==> a[i] != name
    ensures Walk([], a) != Walk(dir, b)
  {
    RootedWalk(a);
    WalkCanonical(false, dir, b);
    assert Walk(dir, b)[0] == name;
  }

  lemma RootedWalk(stack: seq<string>)
    requires CanonicalStack(true, stack)
    ensures Walk([], stack) == stack
  {
    if stack != [] {
      assert stack[0] != "..";
    }
    WalkCanonical(true, [], stack);
  }

  function WalkFrom(rooted: bool, start: seq<string>, stack: seq<string>): seq<string> {
    Walk(if rooted then [] else start, stack)
  }

  /** A canonical stack is determined by where it leads. */
  lemma StacksAgree(ra: bool, a: seq<string>, rb: bool, b: seq<string>)
    requires CanonicalStack(ra, a) && CanonicalStack(rb, b)
    requires forall start: seq<string> :: WalkFrom(ra, start, a) == WalkFrom(rb, start, b)
    ensures ra == rb && a == b
  {
    var name := LongName(MaxLength(a + b) + 1);
    forall i | 0 <= i < |a| ensures a[i] != name { assert (a + b)[i] == a[i]; }
    forall i | 0 <= i < |b| ensures b[i] != name { assert (a + b)[|a| + i] == b[i]; }
    var dir := Deep(|a| + |b| + 1, name);
    assert WalkFrom(ra, dir, a) == WalkFrom(rb, dir, b);
    if ra && rb {
      RootedWalk(a);
      RootedWalk(b);
    } else if !ra && !rb {
      RelativeStacksAgree(a, b, dir, name);
    } else if ra {
      RootedAndRelativeDiffer(a, b, dir, name);
    } else {
      RootedAndRelativeDiffer(b, a, dir, name);
    }
  }

  function MaxLength(stack: seq<string>): (m: nat)
    ensures forall i :: 0 <= i < |stack| ==> |stack[i]| <= m
  {
    if stack == [] then 0 else
    var m := MaxLength(stack[1..]);
    var r := if |stack[0]| > m then |stack[0]| else m;
    assert forall i :: 0 < i < |stack| ==> stack[i] == stack[1..][i - 1];
    r
  }

  /** Two paths clean to the same text exactly when they lead to the same place from everywhere. */
  lemma CleanDecidesMeaning(s: string, t: string)
    ensures Clean(s) == Clean(t) <==> SameMeaning(s, t)
  {
    if Clean(s) == Clean(t) {
      forall start: seq<string> ensures Resolve(start, s) == Resolve(start, t) {
        CleanPreservesMeaning(s, start);
        CleanPreservesMeaning(t, start);
      }
    }
    if SameMeaning(s, t) {
      SameMeaningSameClean(s, t);
    }
  }

  lemma SameMeaningSameClean(s: string, t: string)
    requires SameMeaning(s, t)
    ensures Clean(s) == Clean(t)
  {
    CleanStackCanonical(s);
    CleanStackCanonical(t);
    forall start: seq<string>
      ensures WalkFrom(Rooted(s), start, CleanStack(s)) == WalkFrom(Rooted(t), start, CleanStack(t))
    {
      assert Resolve(start, s) == Resolve(start, t);
      ResolveIsWalk(start, s);
      ResolveIsWalk(start, t);
    }
    StacksAgree(Rooted(s), CleanStack(s), Rooted(t), CleanStack(t));
  }

  // ---------- Length: the clean form is the shortest path with its meaning ----------

  /** Each component read buys the room for what it writes. */
  lemma StepLength(rooted: bool, stack: seq<string>, c: string)
    ensures |Join(Step(rooted, stack, c))| <= |Join(stack)| + |c| + (if stack == [] then 0 else 1)
    ensures c == "" ==> Step(rooted, stack, c) == stack
  {
    hide Join;
    if Step(rooted, stack, c) == stack + [c] {
      JoinPush(stack, c);
      EmptyJoin();
    } else if stack != [] {
      var n := |stack| - 1;
      JoinPush(stack[..n], stack[n]);
      assert stack == stack[..n] + [stack[n]];
      EmptyJoin();
    }
  }

  lemma EmptyJoin()
    ensures Join([]) == ""
  {
  }

  lemma {:induction false} FoldLength(rooted: bool, stack: seq<string>, cs: seq<string>)
    requires cs != []
    ensures |Join(Fold(rooted, stack, cs))| <= |Join(stack)| + |Join(cs)| + (if stack == [] then 0 else 1)
    decreases |cs|
  {
    StepLength(rooted, stack, cs[0]);
    var next := Step(rooted, stack, cs[0]);
    if |cs| == 1 {
      assert cs[1..] == [];
    } else {
      FoldLength(rooted, next, cs[1..]);
      JoinCons(cs[0], cs[1..]);
      assert cs == [cs[0]] + cs[1..];
    }
  }

  lemma CleanNotLonger(s: string)
    ensures |Clean(s)| <= if s == "" then 1 else |s|
  {
    JoinSplit(s);
    if Rooted(s) {
      var t := s[1..];
      SplitConsume("", s);
      assert "" + s == s;
      assert Split(s) == [""] + Split(t);
      assert Split(s)[1..] == Split(t);
      FoldLength(true, [], Split(t));
      JoinSplit(t);
    } else {
      FoldLength(false, [], Split(s));
    }
  }

  /** No non-empty path with the same meaning is shorter than the clean one. */
  lemma CleanIsShortest(s: string, t: string)
    requires SameMeaning(s, t) && t != ""
    ensures |Clean(s)| <= |t|
  {
    CleanDecidesMeaning(s, t);
    CleanNotLonger(t);
  }
}
