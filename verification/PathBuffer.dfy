/**
 The fixed-size path buffer shared by a directory listing or deletion: `PathBuffer`.
 */
module PathBuffers {

  const NUL := '\0'

  /** The limit of Linux, terminator included. */
  const PATH_MAX := 4096

  type CString = s: string | NUL !in s witness ""

  /** What a C caller sees of a path that the buffer has accepted: one of length `PATH_MAX` is cut. */
  function Cut(path: CString): (text: CString)
    ensures text <= path
    ensures text == path <==> |path| < PATH_MAX
  {
    if |path| < PATH_MAX then path else path[..PATH_MAX - 1]
  }

  function Concat(a: CString, b: CString): (c: CString)
    ensures c == a + b
  {
    a + b
  }

  class PathBuffer {
    const data: array<char>
    var length: int

    ghost predicate Valid()
      reads this
    {
      data.Length == PATH_MAX + 1 && 0 <= length <= PATH_MAX
    }

    /** The buffer holds `path` in its first positions (but for a character cut at the limit). */
    ghost predicate Keeps(path: CString)
      requires Valid()
      reads this, data
    {
      && |path| <= PATH_MAX
      && data[..|Cut(path)|] == Cut(path)
      && (|path| == PATH_MAX ==> data[PATH_MAX - 1] == NUL)
    }

    /** A C caller reads `text`. */
    ghost predicate Reads(text: CString)
      requires Valid()
      reads this, data
    {
      |text| <= PATH_MAX && data[..|text|] == text && data[|text|] == NUL
    }

    constructor ()
      ensures Valid() && fresh(data) && length == 0
      ensures Keeps("") && Reads("")
    {
      length := 0;
      data := new char[PATH_MAX + 1](i => NUL);
    }

    /** The bytes up to the first NUL. */
    method AsString(ghost t: CString) returns (text: CString)
      requires Valid() && Reads(t)
      ensures text == t
    {
      var n := 0;
      while data[n] != NUL
        invariant 0 <= n <= |t|
        decreases |t| - n
      {
        assert data[..|t|][n] == t[n];
        n := n + 1;
      }
      assert data[..n] == t[..n];
      text := data[..n];
    }

    /**
     `snprintf(data + length_, PATH_MAX - length_, "%s", name)`: at most one character less than
     the size, then a terminator; nothing at all for size 0. Answers the full length of `name`.
     */
    method Print(name: CString) returns (written: int)
      requires Valid()
      modifies data
      ensures written == |name|
      ensures data[..length] == old(data[..length])
      ensures var room := PATH_MAX - length;
              room > 0 ==>
                var k := if |name| < room then |name| else room - 1;
                data[length..length + k] == name[..k] && data[length + k] == NUL
      ensures length == PATH_MAX ==> data[..PATH_MAX] == old(data[..PATH_MAX])
    {
      var room := PATH_MAX - length;
      if room > 0 {
        var k := if |name| < room then |name| else room - 1;
        forall i | 0 <= i < k { data[length + i] := name[i]; }
        data[length + k] := NUL;
      }
      return |name|;
    }

    /**
     Appends `name` to the path in the buffer. It is accepted when it fits in `PATH_MAX`
     characters; the caller then reads the joined path, less its last character when it fits exactly.
     */
    method Add(name: CString, ghost path: CString) returns (ok: bool)
      requires Valid() && Keeps(path) && |path| == length
      modifies this`length, data
      ensures Valid()
      ensures ok <==> |path| + |name| <= PATH_MAX
      ensures length == if ok then |path| + |name| else |path|
      ensures Reads(Cut(Concat(path, name)))
      ensures Keeps(path)
      ensures ok ==> Keeps(Concat(path, name))
      ensures ok ==> (Reads(Concat(path, name)) <==> |path| + |name| < PATH_MAX)
      ensures data[..old(length)] == old(data[..length])
    {
      var written := Print(name);
      data[PATH_MAX] := NUL;
      ghost var whole := Concat(path, name);
      assert data[..length] == old(data[..length]);
      if length == PATH_MAX {
        assert whole[..PATH_MAX - 1] == path[..PATH_MAX - 1];
        assert data[..PATH_MAX - 1] == data[..length][..PATH_MAX - 1];
      } else {
        ghost var room := PATH_MAX - length;
        ghost var k := if |name| < room then |name| else room - 1;
        assert data[..length + k] == data[..length] + data[length..length + k];
        assert whole[..length + k] == path + name[..k];
      }
      if |whole| == PATH_MAX {
        assert whole[PATH_MAX - 1] in whole && data[PATH_MAX - 1] == NUL;
        assert data[..PATH_MAX][PATH_MAX - 1] == NUL;
      }
      if written <= PATH_MAX - length {
        length := length + written;
        return true;
      }
      return false;
    }

    method Reset(newLength: int, ghost path: CString)
      requires Valid() && Keeps(path) && |path| == newLength
      modifies this`length, data
      ensures Valid() && length == newLength
      ensures Keeps(path) && Reads(Cut(path))
      ensures data[..newLength] == old(data[..newLength])
    {
      length := newLength;
      data[length] := NUL;
    }

    lemma KeepsShorter(short: CString, path: CString)
      requires Valid() && Keeps(path) && short <= path
      ensures Keeps(short)
    {
      assert Cut(short) == Cut(path)[..|Cut(short)|];
    }
  }

  /**
   A path of `PATH_MAX` characters that the buffer accepts, and of which it shows one less. A separator is
   refused after it, so that a directory of this path, once opened, is left without its path length.
   */
  method AcceptedButCut() returns (name: CString, ok: bool, text: CString, separated: bool)
    ensures |name| == PATH_MAX && ok && text == name[..PATH_MAX - 1] && !separated
  {
    name := seq(PATH_MAX, i => 'a');
    var buffer := new PathBuffer();
    assert Concat("", name) == name;
    ok := buffer.Add(name, "");
    text := buffer.AsString(Cut(name));
    separated := buffer.Add("/", name);
  }
}
