/** The name of the lock file that stands for one GPU of one node. */
module LockFile {
  import opened Text

  const GPU := "gpu"
  const EXTENSION := ".lock"

  function SafeLabel(node: string): string {
    if node == [] then []
    else [if node[0] in [' ', '/', ':'] then '_' else node[0]] + SafeLabel(node[1..])
  }

  function LockName(node: string, index: int): string {
    SafeLabel(node) + (['_'] + (GPU + Str(index))) + EXTENSION
  }

  /** For a plain label: the label, _gpu, the index and .lock. */
  lemma NameAsText(node: string, index: int)
    requires ' ' !in node && '/' !in node && ':' !in node
    ensures LockName(node, index) == node + "_gpu" + Str(index) + ".lock"
  {
    PlainLabelIsSafe(node);
    var number := Str(index);
    assert node + (['_'] + (GPU + number)) == node + "_gpu" + number;
  }

  /** In a label, blanks, slashes and colons become underscores and everything else stays. */
  lemma {:induction false} SafeLabelAt(node: string)
    ensures |SafeLabel(node)| == |node|
    ensures forall i :: 0 <= i < |node| ==>
              SafeLabel(node)[i] == if node[i] == ' ' || node[i] == '/' || node[i] == ':' then '_' else node[i]
  {
    if node != [] {
      SafeLabelAt(node[1..]);
    }
  }

  lemma GpuPart(index: int)
    ensures '_' !in GPU + Str(index) && (GPU + Str(index))[3..] == Str(index)
  {
    StrHasNoUnderscore(index);
  }

  lemma Stems(a: string, b: string)
    requires a + EXTENSION == b + EXTENSION
    ensures a == b
  {
    assert |a| == |b|;
    assert a == (a + EXTENSION)[..|a|] && b == (b + EXTENSION)[..|b|];
  }

  /**
    Two GPUs share a lock file exactly when their indices are equal and their node labels cannot be
    told apart once blanks, slashes and colons are replaced: no label can imitate another's index.
   */
  lemma SameFileExactlyWhen(a: string, i: int, b: string, j: int)
    ensures LockName(a, i) == LockName(b, j) <==> SafeLabel(a) == SafeLabel(b) && i == j
  {
    if LockName(a, i) == LockName(b, j) {
      Stems(SafeLabel(a) + (['_'] + (GPU + Str(i))), SafeLabel(b) + (['_'] + (GPU + Str(j))));
      GpuPart(i);
      GpuPart(j);
      LastUnderscore(SafeLabel(a), GPU + Str(i), SafeLabel(b), GPU + Str(j));
      StrInjective(i, j);
    }
  }

  /** Labels without those characters are kept, so different such nodes never share a lock file. */
  lemma {:induction false} PlainLabelIsSafe(node: string)
    requires ' ' !in node && '/' !in node && ':' !in node
    ensures SafeLabel(node) == node
  {
    if node != [] {
      PlainLabelIsSafe(node[1..]);
    }
  }

  /** Labels that differ only there do share one: "a b" and "a/b". */
  lemma LabelsCanCollide(index: int)
    ensures LockName(['a', ' ', 'b'], index) == LockName(['a', '/', 'b'], index)
  {
    assert ['a', ' ', 'b'][1..] == [' ', 'b'] && ['a', '/', 'b'][1..] == ['/', 'b'];
    assert [' ', 'b'][1..] == ['b'] && ['/', 'b'][1..] == ['b'];
  }
}
