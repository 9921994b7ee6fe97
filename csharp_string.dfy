/** The two .NET string operations the editors rely on, with the argument
    checks that would otherwise raise ArgumentOutOfRangeException turned into
    preconditions. The C# range operator `s[..n]` is Dafny's own `s[..n]`. */
module CSharpString {

  /** `s.Insert(i, t)`: the characters of `t` placed before index `i`. */
  function Insert(s: string, i: int, t: string): (r: string)
    requires 0 <= i <= |s|
    ensures |r| == |s| + |t|
    ensures forall k :: 0 <= k < |r| ==>
      r[k] == if k < i then s[k] else if k < i + |t| then t[k - i] else s[k - |t|]
  {
    s[..i] + t + s[i..]
  }

  /** `s.Remove(i, n)`: `s` without the `n` characters that start at index `i`. */
  function Remove(s: string, i: int, n: int): (r: string)
    requires 0 <= i && 0 <= n && i + n <= |s|
    ensures |r| == |s| - n
    ensures forall k :: 0 <= k < |r| ==> r[k] == if k < i then s[k] else s[k + n]
  {
    s[..i] + s[i + n..]
  }

  /** Removing what was just inserted gives back the original string. */
  lemma RemoveInsert(s: string, i: int, t: string)
    requires 0 <= i <= |s|
    ensures Remove(Insert(s, i, t), i, |t|) == s
  {
  }

  /** The three pieces of an inserted string. */
  lemma InsertPieces(s: string, i: int, t: string)
    requires 0 <= i <= |s|
    ensures Insert(s, i, t)[..i] == s[..i]
    ensures Insert(s, i, t)[i..i + |t|] == t
    ensures Insert(s, i, t)[i + |t|..] == s[i..]
  {
  }
}
