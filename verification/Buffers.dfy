/**
 * The fixed buffers of the configuration: each is one byte longer than the length handed to the copying
 * functions, is zeroed once, and is then overwritten in place by strncpy, getcwd and strncat.
 */
module Buffers {
  import opened Text

  const PATH_MAX := 4096
  const DNS_MAX_LENGTH := 256
  const NUL := '\0'

  predicate NoNul(s: string) {
    forall i :: 0 <= i < |s| ==> s[i] != NUL
  }

  /** The C string in a buffer: the bytes before the first NUL. */
  function Str(b: seq<char>): (s: string)
    ensures |s| <= |b| && b[..|s|] == s && NoNul(s)
    ensures |s| < |b| ==> b[|s|] == NUL
  {
    if b == [] || b[0] == NUL then "" else
    assert b == [b[0]] + b[1..];
    [b[0]] + Str(b[1..])
  }

  lemma {:induction false} StrIs(b: seq<char>, s: string)
    requires |s| < |b| && b[..|s|] == s && NoNul(s) && b[|s|] == NUL
    ensures Str(b) == s
  {
    if s != "" {
      assert b[0] == s[0] && b[1..][..|s| - 1] == s[1..];
      StrIs(b[1..], s[1..]);
    }
  }

  /** A buffer for strings of up to `len` bytes. */
  predicate IsBuffer(b: seq<char>, len: nat) {
    |b| == len + 1 && b[len] == NUL
  }

  // ----- the library calls, on bytes -----

  /** strncpy with a source that fits: exactly n bytes are written, padded with NUL. */
  function Copied(b: seq<char>, src: string, n: nat): (b': seq<char>)
    requires |src| <= n <= |b|
    ensures |b'| == |b|
  {
    src + seq(n - |src|, _ => NUL) + b[n..]
  }

  /** strncat: at most n bytes of the source and a NUL are written behind the string. */
  function Appended(b: seq<char>, src: string, n: nat): (b': seq<char>)
    requires |Str(b)| + (if n < |src| then n else |src|) < |b|
    ensures |b'| == |b|
  {
    var k := if n < |src| then n else |src|;
    Str(b) + src[..k] + [NUL] + b[|Str(b)| + k + 1..]
  }

  /** getcwd may scribble over the first `size` bytes; on success they start with the path and a NUL. */
  datatype Cwd = Cwd(path: string, scribble: nat -> char, fails: bool)

  predicate CwdFits(cwd: Cwd, size: nat) {
    !cwd.fails && |cwd.path| < size
  }

  function CwdWritten(b: seq<char>, cwd: Cwd, size: nat): (b': seq<char>)
    requires size <= |b|
    ensures |b'| == |b|
  {
    seq(size, i requires i >= 0 =>
      if !CwdFits(cwd, size) then cwd.scribble(i)
      else if i < |cwd.path| then cwd.path[i] else if i == |cwd.path| then NUL else cwd.scribble(i)) + b[size..]
  }

  // ----- the same calls, in place -----

  method Strncpy(dest: array<char>, src: string, n: nat)
    requires |src| <= n <= dest.Length
    modifies dest
    ensures dest[..] == Copied(old(dest[..]), src, n)
  {
    forall i | 0 <= i < n {
      dest[i] := if i < |src| then src[i] else NUL;
    }
    assert dest[..] == Copied(old(dest[..]), src, n);
  }

  method Strncat(dest: array<char>, src: string, n: nat)
    requires |Str(dest[..])| + (if n < |src| then n else |src|) < dest.Length
    modifies dest
    ensures dest[..] == Appended(old(dest[..]), src, n)
  {
    var len := |Str(dest[..])|;
    var k := if n < |src| then n else |src|;
    ghost var wanted := Appended(dest[..], src, n);
    forall i | len <= i <= len + k {
      dest[i] := if i < len + k then src[i - len] else NUL;
    }
    assert forall i :: 0 <= i < dest.Length ==> dest[i] == wanted[i];
    assert dest[..] == wanted;
  }

  method Getcwd(dest: array<char>, size: nat, cwd: Cwd) returns (ok: bool)
    requires size <= dest.Length
    modifies dest
    ensures ok == CwdFits(cwd, size)
    ensures dest[..] == CwdWritten(old(dest[..]), cwd, size)
  {
    ok := CwdFits(cwd, size);
    forall i | 0 <= i < size {
      dest[i] := if !CwdFits(cwd, size) then cwd.scribble(i)
                 else if i < |cwd.path| then cwd.path[i] else if i == |cwd.path| then NUL else cwd.scribble(i);
    }
    assert dest[..] == CwdWritten(old(dest[..]), cwd, size);
  }

  // ----- the program's own operations -----

  /** `util_copy_string`: refuse a source that is too long, else strncpy. */
  function CopyString(b: seq<char>, src: string, len: nat): (b': seq<char>)
    requires len <= |b|
    ensures |b'| == |b|
  {
    if |src| > len then b else Copied(b, src, len)
  }

  method UtilCopyString(dest: array<char>, src: string, len: nat) returns (ok: bool)
    requires IsBuffer(dest[..], len) && NoNul(src)
    modifies dest
    ensures dest[..] == CopyString(old(dest[..]), src, len)
    ensures IsBuffer(dest[..], len) && ok == (|src| <= len)
    ensures Str(dest[..]) == if |src| <= len then src else Str(old(dest[..]))
  {
    CopyStringMeaning(dest[..], src, len);
    if |src| > len {
      return false;
    }
    Strncpy(dest, src, len);
    return true;
  }

  /** An accepted source replaces the value exactly, even at full length; a longer one leaves it alone. */
  lemma CopyStringMeaning(b: seq<char>, src: string, len: nat)
    requires IsBuffer(b, len) && NoNul(src)
    ensures IsBuffer(CopyString(b, src, len), len)
    ensures Str(CopyString(b, src, len)) == if |src| <= len then src else Str(b)
  {
    if |src| <= len {
      var b' := CopyString(b, src, len);
      assert b'[len] == b[len];
      assert b'[..|src|] == src;
      StrIs(b', src);
    }
  }

  function Take(s: string, n: nat): string {
    if |s| <= n then s else s[..n]
  }

  lemma AppendedMeaning(b: seq<char>, src: string, len: nat)
    requires IsBuffer(b, len) && NoNul(src)
    ensures |Str(b)| <= len
    ensures IsBuffer(Appended(b, src, len - |Str(b)|), len)
    ensures Str(Appended(b, src, len - |Str(b)|)) == Take(Str(b) + src, len)
  {
    var n := len - |Str(b)|;
    var k := if n < |src| then n else |src|;
    var b' := Appended(b, src, n);
    assert b'[..|Str(b)| + k] == Str(b) + src[..k];
    StrIs(b', Str(b) + src[..k]);
    assert Take(Str(b) + src, len) == Str(b) + src[..k];
    if |Str(b)| + k < len {
      assert b'[len] == b[len];
    }
  }

  lemma CwdMeaning(b: seq<char>, cwd: Cwd, len: nat)
    requires IsBuffer(b, len) && NoNul(cwd.path)
    ensures IsBuffer(CwdWritten(b, cwd, len), len)
    ensures CwdFits(cwd, len) ==> Str(CwdWritten(b, cwd, len)) == cwd.path
  {
    var b' := CwdWritten(b, cwd, len);
    assert b'[len] == b[len];
    if CwdFits(cwd, len) {
      assert b'[..|cwd.path|] == cwd.path;
      StrIs(b', cwd.path);
    }
  }

  /** What the command line, the environment and the working directory offer as a file location. */
  datatype Source = Source(argument: Option<string>, environment: Option<string>, cwd: Cwd, defaultName: string)

  predicate CleanSource(src: Source) {
    && (src.argument.Some? ==> NoNul(src.argument.value))
    && (src.environment.Some? ==> NoNul(src.environment.value))
    && NoNul(src.cwd.path) && NoNul(src.defaultName)
  }

  predicate IsAbsolute(path: string) {
    path != "" && path[0] == '/'
  }

  /** The new bytes and the success of `set_db_file_location` and `set_json_log_file_location`. */
  function Located(b: seq<char>, src: Source): ((seq<char>, bool))
    requires IsBuffer(b, PATH_MAX) && CleanSource(src)
  {
    if src.argument.Some? then
      if IsAbsolute(src.argument.value) then (CopyString(b, src.argument.value, PATH_MAX), true) else (b, false)
    else if src.environment.Some? then (CopyString(b, src.environment.value, PATH_MAX), true)
    else
      CwdMeaning(b, src.cwd, PATH_MAX);
      var b1 := CwdWritten(b, src.cwd, PATH_MAX);
      if !CwdFits(src.cwd, PATH_MAX) then (b1, false) else
      AppendedMeaning(b1, "/", PATH_MAX);
      var b2 := Appended(b1, "/", PATH_MAX - |Str(b1)|);
      AppendedMeaning(b2, src.defaultName, PATH_MAX);
      (Appended(b2, src.defaultName, PATH_MAX - |Str(b2)|), true)
  }

  /** The working directory, a slash and the default name. */
  method SetFromCwd(buffer: array<char>, src: Source) returns (ok: bool)
    requires IsBuffer(buffer[..], PATH_MAX) && CleanSource(src) && src.argument.None? && src.environment.None?
    modifies buffer
    ensures (buffer[..], ok) == Located(old(buffer[..]), src)
  {
    CwdMeaning(buffer[..], src.cwd, PATH_MAX);
    ok := Getcwd(buffer, PATH_MAX, src.cwd);
    if !ok {
      return;
    }
    AppendedMeaning(buffer[..], "/", PATH_MAX);
    Strncat(buffer, "/", PATH_MAX - |Str(buffer[..])|);
    AppendedMeaning(buffer[..], src.defaultName, PATH_MAX);
    Strncat(buffer, src.defaultName, PATH_MAX - |Str(buffer[..])|);
  }

  method SetFileLocation(buffer: array<char>, src: Source) returns (ok: bool)
    requires IsBuffer(buffer[..], PATH_MAX) && CleanSource(src)
    modifies buffer
    ensures (buffer[..], ok) == Located(old(buffer[..]), src)
    ensures IsBuffer(buffer[..], PATH_MAX)
  {
    LocatedMeaning(buffer[..], src);
    if src.argument == None {
      if src.environment != None {
        var _ := UtilCopyString(buffer, src.environment.value, PATH_MAX);
        return true;
      }
      ok := SetFromCwd(buffer, src);
      return;
    }
    if IsAbsolute(src.argument.value) {
      var _ := UtilCopyString(buffer, src.argument.value, PATH_MAX);
      return true;
    }
    return false;
  }

  /** The location as a string: exact where it fits, cut where the working directory leaves no room. */
  lemma LocatedMeaning(b: seq<char>, src: Source)
    requires IsBuffer(b, PATH_MAX) && CleanSource(src)
    ensures var (b', ok) := Located(b, src);
            && IsBuffer(b', PATH_MAX)
            && (ok <==> if src.argument.Some? then IsAbsolute(src.argument.value)
                        else src.environment.Some? || CwdFits(src.cwd, PATH_MAX))
            && (src.argument.Some? && !ok ==> b' == b)
            && (ok && src.argument.Some? ==>
                  Str(b') == if |src.argument.value| <= PATH_MAX then src.argument.value else Str(b))
            && (src.argument.None? && src.environment.Some? ==>
                  Str(b') == if |src.environment.value| <= PATH_MAX then src.environment.value else Str(b))
            && (ok && src.argument.None? && src.environment.None? ==>
                  Str(b') == Take(src.cwd.path + "/" + src.defaultName, PATH_MAX))
  {
    if src.argument.Some? {
      CopyStringMeaning(b, src.argument.value, PATH_MAX);
    } else if src.environment.Some? {
      CopyStringMeaning(b, src.environment.value, PATH_MAX);
    } else {
      CwdMeaning(b, src.cwd, PATH_MAX);
      if CwdFits(src.cwd, PATH_MAX) {
        var b1 := CwdWritten(b, src.cwd, PATH_MAX);
        AppendedMeaning(b1, "/", PATH_MAX);
        var b2 := Appended(b1, "/", PATH_MAX - |Str(b1)|);
        assert Str(b2) == src.cwd.path + "/";
        AppendedMeaning(b2, src.defaultName, PATH_MAX);
      }
    }
  }

  // ----- any sequence of operations -----

  datatype Op = Copy(src: string) | Locate(source: Source)

  predicate CleanOp(op: Op) {
    if op.Copy? then NoNul(op.src) else CleanSource(op.source)
  }

  /** The location buffer after any sequence of copies and location calls, successful or not. */
  function AfterOps(b: seq<char>, ops: seq<Op>): (b': seq<char>)
    requires IsBuffer(b, PATH_MAX) && forall i :: 0 <= i < |ops| ==> CleanOp(ops[i])
    ensures IsBuffer(b', PATH_MAX)
  {
    if ops == [] then b
    else
      var before := AfterOps(b, ops[..|ops| - 1]);
      var op := ops[|ops| - 1];
      assert CleanOp(op);
      if op.Copy? then
        CopyStringMeaning(before, op.src, PATH_MAX);
        CopyString(before, op.src, PATH_MAX)
      else
        LocatedMeaning(before, op.source);
        Located(before, op.source).0
  }

  /** Runs the operations on one array: the last byte stays 0 and no write leaves the buffer. */
  method RunOps(buffer: array<char>, ops: seq<Op>)
    requires IsBuffer(buffer[..], PATH_MAX) && forall i :: 0 <= i < |ops| ==> CleanOp(ops[i])
    modifies buffer
    ensures buffer[..] == AfterOps(old(buffer[..]), ops) && buffer[PATH_MAX] == NUL
  {
    var k := 0;
    while k < |ops|
      invariant k <= |ops| && IsBuffer(buffer[..], PATH_MAX)
      invariant buffer[..] == AfterOps(old(buffer[..]), ops[..k])
    {
      assert ops[..k + 1][..k] == ops[..k] && CleanOp(ops[k]);
      if ops[k].Copy? {
        var _ := UtilCopyString(buffer, ops[k].src, PATH_MAX);
      } else {
        var _ := SetFileLocation(buffer, ops[k].source);
      }
      k := k + 1;
    }
    assert ops[..k] == ops;
  }

  /** The string an operation would store, if it stores one. */
  function Stored(op: Op): Option<string> {
    if op.Copy? then (if |op.src| <= PATH_MAX then Some(op.src) else None)
    else if op.source.argument.Some? then
      (if IsAbsolute(op.source.argument.value) && |op.source.argument.value| <= PATH_MAX then op.source.argument else None)
    else if op.source.environment.Some? then
      (if |op.source.environment.value| <= PATH_MAX then op.source.environment else None)
    else Some(Take(op.source.cwd.path + "/" + op.source.defaultName, PATH_MAX))
  }

  predicate LosesBuffer(op: Op) {
    op.Locate? && op.source.argument.None? && op.source.environment.None? && !CwdFits(op.source.cwd, PATH_MAX)
  }

  function LastStored(start: string, ops: seq<Op>): string {
    if ops == [] then start
    else if Stored(ops[|ops| - 1]).Some? then Stored(ops[|ops| - 1]).value
    else LastStored(start, ops[..|ops| - 1])
  }

  /** Unless getcwd fails, the value is that of the last operation that stored one. */
  lemma {:induction false} LastStoredWins(b: seq<char>, ops: seq<Op>)
    requires IsBuffer(b, PATH_MAX)
    requires forall i :: 0 <= i < |ops| ==> CleanOp(ops[i])
    requires forall i :: 0 <= i < |ops| ==> !LosesBuffer(ops[i])
    ensures Str(AfterOps(b, ops)) == LastStored(Str(b), ops)
  {
    if ops != [] {
      var last := |ops| - 1;
      LastStoredWins(b, ops[..last]);
      var before := AfterOps(b, ops[..last]);
      assert CleanOp(ops[last]) && !LosesBuffer(ops[last]);
      if ops[last].Copy? {
        CopyStringMeaning(before, ops[last].src, PATH_MAX);
      } else {
        LocatedMeaning(before, ops[last].source);
      }
    }
  }
}
