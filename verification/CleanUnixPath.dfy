/**
 The in-place byte loop of `File::CleanUnixPath`, proved to compute `LexicalPath.Clean`
 without leaving its buffers.
 */
module CleanUnixPathLoop {
  import opened LexicalPath

  /** A C string: its bytes up to and including the first NUL. */
  predicate IsCString(buffer: seq<char>) {
    && |buffer| > 0
    && buffer[|buffer| - 1] == NUL
    && forall i :: 0 <= i < |buffer| - 1 ==> buffer[i] != NUL
  }

  function Text(buffer: seq<char>): string
    requires IsCString(buffer)
  {
    buffer[..|buffer| - 1]
  }

  predicate IsSeparator(c: char) {
    c == '/' || c == NUL
  }

  /**
   An output buffer. A store past its end changes nothing that is modelled, and is remembered.
   */
  class Buffer {
    const bytes: array<char>
    var overran: bool

    constructor (size: nat)
      ensures fresh(bytes) && bytes.Length == size && !overran
    {
      bytes := new char[size](_ => NUL);
      overran := false;
    }

    method Store(i: nat, c: char)
      modifies this`overran, bytes
      ensures i < bytes.Length ==> bytes[..] == old(bytes[..])[i := c] && overran == old(overran)
      ensures i >= bytes.Length ==> bytes[..] == old(bytes[..]) && overran
    {
      if i < bytes.Length {
        bytes[i] := c;
      } else {
        overran := true;
      }
    }
  }

  /** The buffer lengths that suffice: two bytes, or one for a longer rooted path, which is then refused. */
  predicate Accommodates(s: string, outlen: int) {
    outlen >= 2 || !Rooted(s) || (outlen == 1 && |s| >= 2)
  }

  // ---------- The buffer as a rendered stack ----------

  lemma RenderPush(rooted: bool, stack: seq<string>, c: string)
    ensures Render(rooted, stack + [c]) == Render(rooted, stack) + (if stack == [] then "" else "/") + c
  {
    JoinPush(stack, c);
  }

  lemma {:induction false} RenderPrefixLength(rooted: bool, stack: seq<string>, k: nat)
    requires k <= |stack| && forall i :: 0 <= i < |stack| ==> IsComponent(stack[i])
    ensures |Render(rooted, stack[..k])| <= |Render(rooted, stack)|
    ensures |Render(rooted, stack[..k])| == |Render(rooted, stack)| <==> k == |stack|
    decreases |stack|
  {
    if k < |stack| {
      var n := |stack| - 1;
      RenderPrefixLength(rooted, stack[..n], k);
      assert stack[..n][..k] == stack[..k];
      RenderPush(rooted, stack[..n], stack[n]);
      assert stack == stack[..n] + [stack[n]];
    } else {
      assert stack[..k] == stack;
    }
  }

  /** How much of the output a dot-dot leaves alone: the root, or the dot-dots before it. */
  function DotDotIndex(rooted: bool, stack: seq<string>): nat {
    |Render(rooted, stack[..Ups(stack)])|
  }

  lemma {:induction false} UpsTake(stack: seq<string>, n: nat)
    requires Ups(stack) <= n <= |stack|
    ensures Ups(stack[..n]) == Ups(stack)
  {
    if n > 0 && stack[0] == ".." {
      UpsTake(stack[1..], n - 1);
      assert stack[..n][1..] == stack[1..][..n - 1];
    }
  }

  lemma UpsPush(stack: seq<string>, c: string)
    ensures Ups(stack + [c]) == if Ups(stack) == |stack| && c == ".." then |stack| + 1 else Ups(stack)
  {
    var s := stack + [c];
    assert forall i :: 0 <= i < |stack| ==> s[i] == stack[i];
    assert s[|stack|] == c;
  }

  lemma AfterSeparator(front: string, sep: string, c: string)
    requires |sep| <= 1 && NoSlash(c)
    ensures var text := front + sep + c;
            && text[..|front|] == front
            && (forall i :: |front| + |sep| <= i < |text| ==> text[i] != '/')
            && (sep == "/" ==> text[|front|] == '/')
  {
    var text := front + sep + c;
    assert text[|front| + |sep|..] == c;
    forall i | |front| + |sep| <= i < |text| ensures text[i] != '/' {
      assert text[i] == c[i - |front| - |sep|];
    }
  }

  /** What the backwards scan of rule 3 finds. */
  lemma PopTarget(rooted: bool, stack: seq<string>)
    requires CanonicalStack(rooted, stack) && Ups(stack) < |stack|
    ensures var n := |stack| - 1;
            var text, target, dotdot := Render(rooted, stack), |Render(rooted, stack[..n])|, DotDotIndex(rooted, stack);
            && dotdot <= target < |text|
            && text[..target] == Render(rooted, stack[..n])
            && (forall i :: target < i < |text| ==> text[i] != '/')
            && (target == dotdot || text[target] == '/')
            && DotDotIndex(rooted, stack[..n]) == dotdot
  {
    hide Render, Ups;
    var n := |stack| - 1;
    var k := Ups(stack);
    assert stack == stack[..n] + [stack[n]];
    RenderPush(rooted, stack[..n], stack[n]);
    RenderPrefixLength(rooted, stack[..n], k);
    assert stack[..n][..k] == stack[..k];
    UpsTake(stack, n);
    var text, front, c := Render(rooted, stack), Render(rooted, stack[..n]), stack[n];
    var sep := if n == 0 then "" else "/";
    assert text == front + sep + c;
    AfterSeparator(front, sep, c);
  }

  /** Whether a component fits the buffer state: the tests on `out_index` say whether the stack is empty. */
  lemma IndexTests(rooted: bool, stack: seq<string>)
    requires CanonicalStack(rooted, stack)
    ensures |Render(rooted, stack)| == (if rooted then 1 else 0) <==> stack == []
    ensures |Render(rooted, stack)| > DotDotIndex(rooted, stack) <==> Ups(stack) < |stack|
    ensures rooted ==> Ups(stack) == 0
  {
    RenderPrefixLength(rooted, stack, Ups(stack));
    if stack != [] {
      JoinNonEmpty(stack);
      assert rooted ==> stack[0] != "..";
    }
  }

  /** Dropping one component from the front of what is still to be read. */
  lemma Consume(s: string, rooted: bool, stack: seq<string>, i: nat, j: nat)
    requires i <= j <= |s| && NoSlash(s[i..j]) && (j == |s| || s[j] == '/')
    ensures Fold(rooted, stack, Split(s[i..])) == Fold(rooted, Step(rooted, stack, s[i..j]), Split(s[j..]))
  {
    assert s[i..] == s[i..j] + s[j..];
    FoldConsume(rooted, stack, s[i..j], s[j..]);
  }

  lemma ConsumeSlash(s: string, rooted: bool, stack: seq<string>, i: nat)
    requires i < |s| && s[i] == '/'
    ensures Fold(rooted, stack, Split(s[i..])) == Fold(rooted, stack, Split(s[i + 1..]))
  {
    assert "" + s[i..] == s[i..] && s[i..][1..] == s[i + 1..];
    SplitConsume("", s[i..]);
    assert ([""] + Split(s[i + 1..]))[1..] == Split(s[i + 1..]);
  }

  lemma NothingLeft(rooted: bool, stack: seq<string>)
    ensures Fold(rooted, stack, Split("")) == stack
  {
    SplitConsume("", "");
    assert "" + "" == "";
    assert [""][1..] == [];
  }

  /** The loop invariant: what is written renders the stack, and the stack is right for what was read. */
  ghost predicate Invariant(s: string, rooted: bool, stack: seq<string>, text: string, inIndex: int, dotdot: int)
  {
    && 0 <= inIndex <= |s|
    && rooted == Rooted(s)
    && CanonicalStack(rooted, stack)
    && text == Render(rooted, stack)
    && dotdot == DotDotIndex(rooted, stack)
    && Fold(rooted, [], Split(s)) == Fold(rooted, stack, Split(s[inIndex..]))
    // The write index never passes the read index, and is behind it at the start of a component.
    && |text| <= inIndex
    && (inIndex < |s| && s[inIndex] != '/' && stack != [] ==> |text| < inIndex)
  }

  lemma InvariantIndices(s: string, rooted: bool, stack: seq<string>, text: string, i: int, dotdot: int)
    requires Invariant(s, rooted, stack, text, i, dotdot)
    ensures rooted == Rooted(s) && |text| <= i
    ensures |text| == (if rooted then 1 else 0) <==> stack == []
    ensures i < |s| && s[i] != '/' && stack != [] ==> |text| < i
    ensures |text| > dotdot <==> Ups(stack) < |stack|
  {
    IndexTests(rooted, stack);
  }

  lemma CleanEmpty()
    ensures Clean("") == "."
  {
    NothingLeft(false, []);
  }

  // ---------- One lemma per rule ----------

  lemma SlashStep(s: string, rooted: bool, stack: seq<string>, text: string, i: int, dotdot: int)
    requires Invariant(s, rooted, stack, text, i, dotdot) && i < |s| && s[i] == '/'
    ensures Invariant(s, rooted, stack, text, i + 1, dotdot)
  {
    ConsumeSlash(s, rooted, stack, i);
  }

  lemma DotStep(s: string, rooted: bool, stack: seq<string>, text: string, i: int, dotdot: int)
    requires Invariant(s, rooted, stack, text, i, dotdot)
    requires i < |s| && s[i] == '.' && (i + 1 == |s| || s[i + 1] == '/')
    ensures Invariant(s, rooted, stack, text, i + 1, dotdot)
  {
    hide Fold, Split, CanonicalStack, Render, Ups;
    assert s[i..i + 1] == ".";
    Consume(s, rooted, stack, i, i + 1);
  }

  ghost predicate DotDotAt(s: string, i: int) {
    && 0 <= i < |s| - 1 && s[i] == '.' && s[i + 1] == '.'
    && (i + 2 == |s| || s[i + 2] == '/')
  }

  lemma ConsumeDotDot(s: string, rooted: bool, stack: seq<string>, i: int)
    requires DotDotAt(s, i)
    ensures Fold(rooted, stack, Split(s[i..])) == Fold(rooted, Step(rooted, stack, ".."), Split(s[i + 2..]))
  {
    assert s[i..i + 2] == "..";
    Consume(s, rooted, stack, i, i + 2);
  }

  lemma LastIsName(rooted: bool, stack: seq<string>)
    requires CanonicalStack(rooted, stack) && Ups(stack) < |stack|
    ensures Step(rooted, stack, "..") == stack[..|stack| - 1]
  {
    assert stack[Ups(stack)] != "..";
  }

  lemma PopStep(s: string, rooted: bool, stack: seq<string>, text: string, i: int, dotdot: int)
    requires Invariant(s, rooted, stack, text, i, dotdot) && DotDotAt(s, i) && |text| > dotdot
    ensures stack != []
    ensures var target := |Render(rooted, stack[..|stack| - 1])|;
            && dotdot <= target < |text|
            && (forall j :: target < j < |text| ==> text[j] != '/')
            && (target == dotdot || text[target] == '/')
            && Invariant(s, rooted, stack[..|stack| - 1], text[..target], i + 2, dotdot)
  {
    IndexTests(rooted, stack);
    PopTarget(rooted, stack);
    LastIsName(rooted, stack);
    ConsumeDotDot(s, rooted, stack, i);
    StepCanonical(rooted, stack, "..");
  }

  lemma RootStep(s: string, stack: seq<string>, text: string, i: int, dotdot: int)
    requires Invariant(s, true, stack, text, i, dotdot) && DotDotAt(s, i) && |text| <= dotdot
    ensures Invariant(s, true, stack, text, i + 2, dotdot)
  {
    IndexTests(true, stack);
    ConsumeDotDot(s, true, stack, i);
  }

  function Separator(stack: seq<string>): string {
    if stack == [] then "" else "/"
  }

  lemma KeepStep(s: string, stack: seq<string>, text: string, i: int, dotdot: int)
    requires Invariant(s, false, stack, text, i, dotdot) && DotDotAt(s, i) && |text| <= dotdot
    ensures var t := text + Separator(stack) + "..";
            Invariant(s, false, stack + [".."], t, i + 2, |t|)
  {
    hide Fold, Split, Render, Ups;
    IndexTests(false, stack);
    ConsumeDotDot(s, false, stack, i);
    StepCanonical(false, stack, "..");
    RenderPush(false, stack, "..");
    UpsPush(stack, "..");
    assert (stack + [".."])[..|stack| + 1] == stack + [".."];
  }

  lemma NameStep(s: string, rooted: bool, stack: seq<string>, text: string, i: int, j: int, dotdot: int)
    requires Invariant(s, rooted, stack, text, i, dotdot)
    requires i < j <= |s| && IsName(s[i..j]) && (j == |s| || s[j] == '/')
    ensures Invariant(s, rooted, stack + [s[i..j]], text + Separator(stack) + s[i..j], j, dotdot)
  {
    hide Fold, Split, Render, Ups, NoSlash;
    var name := s[i..j];
    Consume(s, rooted, stack, i, j);
    StepCanonical(rooted, stack, name);
    RenderPush(rooted, stack, name);
    UpsPush(stack, name);
    assert (stack + [name])[..Ups(stack)] == stack[..Ups(stack)];
    NameStarts(s, i, j);
  }

  lemma NameStarts(s: string, i: int, j: int)
    requires 0 <= i < j <= |s| && IsName(s[i..j])
    ensures s[i] != '/'
  {
    assert s[i] == s[i..j][0];
  }

  lemma StartStep(s: string)
    requires s != ""
    ensures Invariant(s, Rooted(s), [], if Rooted(s) then "/" else "", if Rooted(s) then 1 else 0, if Rooted(s) then 1 else 0)
  {
    assert s[0..] == s;
    if Rooted(s) {
      ConsumeSlash(s, true, [], 0);
    }
  }

  lemma EndStep(s: string, rooted: bool, stack: seq<string>, text: string, dotdot: int)
    requires Invariant(s, rooted, stack, text, |s|, dotdot)
    ensures Clean(s) == if text == "" then "." else text
  {
    assert s[|s|..] == "";
    NothingLeft(rooted, stack);
  }

  // ---------- The loop ----------

  /**
   The state between two turns of the loop. With fewer than two bytes there is no second turn; with
   none the root has already been stored past the end.
   */
  ghost predicate InLoop(input: seq<char>, out: Buffer, rooted: bool, stack: seq<string>, i: int, o: int, dotdot: int)
    requires IsCString(input)
    reads out, out.bytes
  {
    var n := out.bytes.Length;
    && 0 <= i <= |Text(input)| && Text(input) != "" && rooted == Rooted(Text(input))
    && (n < 2 ==> i == o == (if rooted then 1 else 0) && stack == [])
    && (n >= 2 ==> i < n)
    && (out.overran <==> n == 0 && rooted)
    && (!out.overran ==> 0 <= o <= n && Invariant(Text(input), rooted, stack, out.bytes[..o], i, dotdot))
  }

  /** The state of the buffer when the input is found not to fit. */
  lemma Refused(input: seq<char>, out: Buffer, rooted: bool, stack: seq<string>, i: int, o: int, dotdot: int)
    requires IsCString(input) && InLoop(input, out, rooted, stack, i, o, dotdot) && i < |Text(input)|
    ensures out.overran <==> !Accommodates(Text(input), out.bytes.Length)
    ensures out.overran ==> |Text(input)| > 1
  {
    hide Invariant;
  }

  /**
   Cleans `input` into `out`. The stores leave the buffer exactly when it is too short for a rooted
   path; otherwise the answer is -1 exactly when the input is not shorter than the buffer.
   */
  method CleanUnixPath(input: seq<char>, out: Buffer) returns (r: int)
    requires IsCString(input) && !out.overran
    modifies out`overran, out.bytes
    ensures out.overran <==> !Accommodates(Text(input), out.bytes.Length)
    ensures !out.overran ==> (r == -1 <==> Text(input) != "" && |Text(input)| >= out.bytes.Length)
    ensures !out.overran && r != -1 && out.bytes.Length >= 2 ==>
              && r == |Clean(Text(input))| < out.bytes.Length
              && out.bytes[..r] == Clean(Text(input))
              && out.bytes[r] == NUL
    ensures !out.overran && r != -1 && out.bytes.Length < 2 ==>
              r == 1 && Text(input) == "" && (out.bytes.Length == 1 ==> out.bytes[0] == NUL)
    ensures out.overran ==> r == if |Text(input)| == 1 then 1 else -1
  {
    hide Invariant, Clean, InLoop;
    if input[0] == NUL {
      PrintDot(out);
      CleanEmpty();
      return 1;
    }
    ghost var stack: seq<string> := [];
    var rooted, inIndex, outIndex := Begin(input, out);
    var dotdot := outIndex;
    while input[inIndex] != NUL
      invariant 0 <= inIndex <= |Text(input)| && InLoop(input, out, rooted, stack, inIndex, outIndex, dotdot)
      decreases |Text(input)| - inIndex
    {
      Refused(input, out, rooted, stack, inIndex, outIndex, dotdot);
      if input[inIndex] == '/' || (input[inIndex] == '.' && IsSeparator(input[inIndex + 1])) {
        inIndex := SkipOne(input, out, rooted, inIndex, outIndex, dotdot, stack);
      } else if input[inIndex] == '.' && input[inIndex + 1] == '.' && IsSeparator(input[inIndex + 2]) {
        inIndex, outIndex, dotdot, stack := Parent(input, out, rooted, inIndex, outIndex, dotdot, stack);
      } else {
        inIndex, outIndex, stack := AppendName(input, out, rooted, inIndex, outIndex, dotdot, stack);
      }
      if inIndex == -1 {
        return -1;
      }
    }
    r := Terminate(input, out, rooted, stack, outIndex, dotdot);
  }

  /** The root of a rooted path. */
  method Begin(input: seq<char>, out: Buffer) returns (rooted: bool, inIndex: int, outIndex: int)
    requires IsCString(input) && !out.overran && input[0] != NUL
    modifies out`overran, out.bytes
    ensures InLoop(input, out, rooted, [], inIndex, outIndex, outIndex)
  {
    rooted := input[0] == '/';
    inIndex, outIndex := 0, 0;
    if rooted {
      out.Store(outIndex, '/');
      outIndex := outIndex + 1;
      inIndex := inIndex + 1;
    }
    StartStep(Text(input));
    if !out.overran {
      assert out.bytes[..outIndex] == if rooted then "/" else "";
    }
  }

  /** Rules 1 and 2: a slash and a dot are passed over. */
  method SkipOne(input: seq<char>, out: Buffer, rooted: bool, i: int, ghost o: int, ghost dotdot: int,
                 ghost stack: seq<string>)
    returns (inIndex: int)
    requires IsCString(input) && InLoop(input, out, rooted, stack, i, o, dotdot) && i < |Text(input)|
    requires input[i] == '/' || (input[i] == '.' && IsSeparator(input[i + 1]))
    ensures inIndex == -1 ==> |Text(input)| >= out.bytes.Length
    ensures inIndex != -1 ==> inIndex == i + 1 && InLoop(input, out, rooted, stack, inIndex, o, dotdot)
  {
    hide Invariant;
    if i + 1 >= out.bytes.Length {
      return -1;
    }
    if input[i] == '/' {
      SlashStep(Text(input), rooted, stack, out.bytes[..o], i, dotdot);
    } else {
      DotStep(Text(input), rooted, stack, out.bytes[..o], i, dotdot);
    }
    return i + 1;
  }

  /** Rules 3 to 5: two dots remove a name, vanish at the root, or stay. */
  method Parent(input: seq<char>, out: Buffer, rooted: bool, i: int, o: int, dot: int, ghost names: seq<string>)
    returns (inIndex: int, outIndex: int, dotdot: int, ghost stack: seq<string>)
    requires IsCString(input) && InLoop(input, out, rooted, names, i, o, dot) && i + 1 < |Text(input)|
    requires DotDotAt(Text(input), i)
    modifies out`overran, out.bytes
    ensures inIndex == -1 ==> |Text(input)| >= out.bytes.Length && out.overran == old(out.overran)
    ensures inIndex != -1 ==> inIndex == i + 2 && InLoop(input, out, rooted, stack, inIndex, outIndex, dotdot)
  {
    hide Invariant, Ups;
    inIndex, outIndex, dotdot, stack := i, o, dot, names;
    if inIndex + 2 >= out.bytes.Length {
      return -1, o, dot, names;
    }
    ghost var s, text := Text(input), out.bytes[..o];
    InvariantIndices(s, rooted, names, text, i, dot);
    inIndex := inIndex + 2;
    if outIndex > dotdot {
      outIndex := DropLast(s, out, outIndex, dotdot, rooted, names, i);
      stack := names[..|names| - 1];
    } else if rooted {
      RootStep(s, names, text, i, dot);
    } else {
      KeepStep(s, names, text, i, dot);
      outIndex := AppendDotDot(out, outIndex);
      dotdot := outIndex;
      stack := names + [".."];
    }
  }

  /** The stores of rule 5. */
  method AppendDotDot(out: Buffer, index: int) returns (outIndex: int)
    requires 0 <= index && index + (if index > 0 then 3 else 2) <= out.bytes.Length
    modifies out`overran, out.bytes
    ensures outIndex == index + (if index > 0 then 3 else 2) && out.overran == old(out.overran)
    ensures out.bytes[..outIndex] == old(out.bytes[..index]) + (if index > 0 then "/" else "") + ".."
  {
    outIndex := index;
    if outIndex > 0 {
      out.Store(outIndex, '/');
      outIndex := outIndex + 1;
    }
    out.Store(outIndex, '.');
    outIndex := outIndex + 1;
    out.Store(outIndex, '.');
    outIndex := outIndex + 1;
  }

  /** The last branch of the loop: a separator where one is due, then the name. */
  method AppendName(input: seq<char>, out: Buffer, rooted: bool, i: int, o: int, ghost dotdot: int, ghost names: seq<string>)
    returns (inIndex: int, outIndex: int, ghost stack: seq<string>)
    requires IsCString(input) && InLoop(input, out, rooted, names, i, o, dotdot) && i < |Text(input)|
    requires NameAt(input, i)
    modifies out`overran, out.bytes
    ensures inIndex == -1 ==> |Text(input)| >= out.bytes.Length && out.overran == old(out.overran)
    ensures inIndex != -1 ==>
              i < inIndex <= |Text(input)| && InLoop(input, out, rooted, stack, inIndex, outIndex, dotdot)
  {
    hide Invariant, Ups;
    stack := names;
    ghost var text := if out.overran then "" else out.bytes[..o];
    outIndex := o;
    if !out.overran {
      InvariantIndices(Text(input), rooted, names, text, i, dotdot);
    }
    if (rooted && outIndex != 1) || (!rooted && outIndex != 0) {
      out.Store(outIndex, '/');
      outIndex := outIndex + 1;
    }
    assert !out.overran ==> out.bytes[..outIndex] == text + Separator(names);
    inIndex, outIndex := CopyName(input, out, i, outIndex);
    if inIndex != -1 {
      NameFound(input, i, inIndex);
      NameStep(Text(input), rooted, names, text, i, inIndex, dotdot);
      stack := names + [Text(input)[i..inIndex]];
      assert out.bytes[..outIndex] == text + Separator(names) + Text(input)[i..inIndex];
    }
  }

  /** None of rules 1 to 5 applies at `i`. */
  ghost predicate NameAt(input: seq<char>, i: int)
    requires IsCString(input)
  {
    && 0 <= i < |input| - 1
    && input[i] != '/'
    && !(input[i] == '.' && IsSeparator(input[i + 1]))
    && !(input[i] == '.' && input[i + 1] == '.' && IsSeparator(input[i + 2]))
  }

  lemma NameFound(input: seq<char>, i: int, j: int)
    requires IsCString(input) && NameAt(input, i) && i <= j < |input|
    requires IsSeparator(input[j]) && forall k :: i <= k < j ==> !IsSeparator(input[k])
    ensures i < j && IsName(Text(input)[i..j]) && (j == |Text(input)| || Text(input)[j] == '/')
  {
    var name := Text(input)[i..j];
    assert forall k :: 0 <= k < |name| ==> name[k] == input[i + k];
    assert NoSlash(name);
    assert |name| == 1 ==> name[0] != '.';
    assert |name| == 2 ==> !(name[0] == '.' && name[1] == '.');
  }

  /** Copies a name up to the next separator; `inIndex` is -1 when the input does not fit. */
  method CopyName(input: seq<char>, out: Buffer, i: int, o: int) returns (inIndex: int, outIndex: int)
    requires IsCString(input) && 0 <= i < |input| - 1 && !IsSeparator(input[i])
    requires 0 <= o <= i && (out.bytes.Length > 0 ==> o <= out.bytes.Length)
    modifies out`overran, out.bytes
    ensures out.overran == old(out.overran)
    ensures inIndex == -1 ==> |Text(input)| >= out.bytes.Length
    ensures inIndex != -1 ==>
              && i < inIndex < |input| && inIndex < out.bytes.Length
              && IsSeparator(input[inIndex])
              && (forall k :: i <= k < inIndex ==> !IsSeparator(input[k]))
              && outIndex == o + inIndex - i <= out.bytes.Length
              && out.bytes[..outIndex] == old(out.bytes[..o]) + Text(input)[i..inIndex]
  {
    inIndex, outIndex := i, o;
    while !IsSeparator(input[inIndex])
      invariant i <= inIndex < |input| && outIndex == o + inIndex - i && out.overran == old(out.overran)
      invariant forall k :: i <= k < inIndex ==> !IsSeparator(input[k])
      invariant inIndex == i ==> out.bytes[..] == old(out.bytes[..])
      invariant inIndex > i ==> inIndex < out.bytes.Length && outIndex <= out.bytes.Length
      invariant inIndex > i ==> out.bytes[..outIndex] == old(out.bytes[..o]) + Text(input)[i..inIndex]
      decreases |input| - inIndex
    {
      if inIndex + 1 >= out.bytes.Length {
        return -1, 0;
      }
      ghost var text := out.bytes[..outIndex];
      out.Store(outIndex, input[inIndex]);
      assert out.bytes[..outIndex + 1] == text + [input[inIndex]];
      assert Text(input)[i..inIndex + 1] == Text(input)[i..inIndex] + [input[inIndex]];
      outIndex := outIndex + 1;
      inIndex := inIndex + 1;
    }
  }

  /** The end of the input: a dot for nothing, else the terminator. */
  method Terminate(input: seq<char>, out: Buffer, rooted: bool, ghost stack: seq<string>, outIndex: int, ghost dotdot: int)
    returns (r: int)
    requires IsCString(input) && InLoop(input, out, rooted, stack, |Text(input)|, outIndex, dotdot)
    modifies out`overran, out.bytes
    ensures out.overran <==> !Accommodates(Text(input), out.bytes.Length)
    ensures out.overran ==> r == 1 && |Text(input)| == 1
    ensures !out.overran ==>
              && 0 <= r == |Clean(Text(input))| < out.bytes.Length && |Text(input)| < out.bytes.Length
              && out.bytes[..r] == Clean(Text(input)) && out.bytes[r] == NUL
  {
    hide Invariant, Clean, Ups;
    if !out.overran {
      InvariantIndices(Text(input), rooted, stack, out.bytes[..outIndex], |Text(input)|, dotdot);
      EndStep(Text(input), rooted, stack, out.bytes[..outIndex], dotdot);
    }
    if outIndex == 0 {
      PrintDot(out);
      return 1;
    }
    ghost var text := if out.overran then "" else out.bytes[..outIndex];
    out.Store(outIndex, NUL);
    assert !out.overran ==> out.bytes[..outIndex] == text;
    return outIndex;
  }

  /** `snprintf(out, outlen, ".")`. */
  method PrintDot(out: Buffer)
    modifies out.bytes
    ensures out.bytes.Length >= 2 ==> out.bytes[0] == '.' && out.bytes[1] == NUL
    ensures out.bytes.Length == 1 ==> out.bytes[0] == NUL
  {
    if out.bytes.Length >= 2 {
      out.bytes[0] := '.';
      out.bytes[1] := NUL;
    } else if out.bytes.Length == 1 {
      out.bytes[0] := NUL;
    }
  }

  /** The backwards scan of rule 3: the new output index. */
  method DropLast(ghost s: string, out: Buffer, end: int, dotdot: int,
                  ghost rooted: bool, ghost stack: seq<string>, ghost i: int)
    returns (outIndex: int)
    requires 0 <= end <= out.bytes.Length && dotdot < end
    requires Invariant(s, rooted, stack, out.bytes[..end], i, dotdot) && DotDotAt(s, i)
    ensures 0 <= outIndex < end
    ensures stack != [] && Invariant(s, rooted, stack[..|stack| - 1], out.bytes[..outIndex], i + 2, dotdot)
  {
    hide Invariant;
    PopStep(s, rooted, stack, out.bytes[..end], i, dotdot);
    ghost var target := |Render(rooted, stack[..|stack| - 1])|;
    outIndex := end - 1;
    while outIndex > dotdot && out.bytes[outIndex] != '/'
      invariant target <= outIndex < end
    {
      assert outIndex != target;
      outIndex := outIndex - 1;
    }
    assert outIndex == target;
    assert out.bytes[..outIndex] == out.bytes[..end][..target];
  }

  /** The root does not fit in one byte with its terminator. */
  method RootOverruns() returns (out: Buffer, r: int)
    ensures out.bytes.Length == 1 && out.overran && r == 1
  {
    out := new Buffer(1);
    r := CleanUnixPath(['/', NUL], out);
  }
}
