// Splitting the local proxy list into part files of near-equal size: the
// cleaned lines are cut into `num_parts` consecutive runs, the first
// `total % num_parts` runs one line longer than the rest.
module ProxySplit {
  import opened Wrappers
  import opened Text

  /** A line is kept, stripped, when anything but white space is left. */
  function CleanLine(line: string): Option<string> {
    var t := Strip(line);
    if t == "" then None else Some(t)
  }

  /** `[line.strip() for line in text.splitlines() if line.strip()]`. */
  function CleanLines(text: string): seq<string> {
    Kept(SplitLines(text), CleanLine)
  }

  /** Every cleaned line is stripped and not empty. */
  lemma CleanLinesStripped(text: string)
    ensures forall i :: 0 <= i < |CleanLines(text)| ==> CleanLines(text)[i] != "" && IsStripped(CleanLines(text)[i])
  {
    KeptSatisfy(SplitLines(text), CleanLine, (t: string) => t != "" && IsStripped(t));
  }

  /** The size of part `i` (counted from 1): one extra line while the remainder lasts. */
  function PartSize(total: nat, numParts: nat, i: nat): nat
    requires numParts > 0
  {
    total / numParts + if i <= total % numParts then 1 else 0
  }

  /** Where part `i` (counted from 1) starts. */
  function PartStart(total: nat, numParts: nat, i: nat): nat
    requires numParts > 0
  {
    var before: nat := if i == 0 then 0 else i - 1;
    before * (total / numParts) + if before <= total % numParts then before else total % numParts
  }

  lemma PartStartNext(total: nat, numParts: nat, i: nat)
    requires numParts > 0 && i >= 1
    ensures PartStart(total, numParts, i + 1) == PartStart(total, numParts, i) + PartSize(total, numParts, i)
  {
    var c := total / numParts;
    assert i * c == (i - 1) * c + c;
  }

  /** After the last part the start is the number of lines. */
  lemma PartStartEnd(total: nat, numParts: nat)
    requires numParts > 0
    ensures PartStart(total, numParts, numParts + 1) == total
  {
    var c, r := total / numParts, total % numParts;
    assert r < numParts;
    assert numParts * c + r == total;
  }

  function Concat(parts: seq<seq<string>>): seq<string>
    decreases |parts|
  {
    if parts == [] then [] else Concat(parts[..|parts| - 1]) + parts[|parts| - 1]
  }

  /** The module-level loop: cut the lines into `numParts` consecutive slices. */
  method SplitParts(lines: seq<string>, numParts: nat) returns (parts: seq<seq<string>>)
    requires numParts > 0
    ensures |parts| == numParts
    ensures forall i :: 0 <= i < numParts ==> |parts[i]| == PartSize(|lines|, numParts, i + 1)
    ensures Concat(parts) == lines
    ensures forall i, j :: 0 <= i < numParts && 0 <= j < numParts ==> |parts[i]| <= |parts[j]| + 1
  {
    var total := |lines|;
    var chunkSize := total / numParts;
    var remainder := total % numParts;
    parts := [];
    var start := 0;
    var i := 1;
    while i <= numParts
      invariant 1 <= i <= numParts + 1 && |parts| == i - 1
      invariant start == PartStart(total, numParts, i) <= total
      invariant forall j :: 0 <= j < i - 1 ==> |parts[j]| == PartSize(total, numParts, j + 1)
      invariant Concat(parts) == lines[..start]
    {
      var end := start + chunkSize + if i <= remainder then 1 else 0;
      PartStartNext(total, numParts, i);
      PartStartBound(total, numParts, i + 1);
      var partLines := lines[start..end];
      assert Concat(parts + [partLines]) == Concat(parts) + partLines by {
        assert (parts + [partLines])[..|parts|] == parts;
      }
      assert lines[..start] + lines[start..end] == lines[..end];
      parts := parts + [partLines];
      start := end;
      i := i + 1;
    }
    PartStartEnd(total, numParts);
    assert lines[..start] == lines;
    forall i, j | 0 <= i < numParts && 0 <= j < numParts
      ensures |parts[i]| <= |parts[j]| + 1
    {
      PartSizesBalanced(total, numParts, i + 1, j + 1);
    }
  }

  lemma PartStartBound(total: nat, numParts: nat, i: nat)
    requires numParts > 0 && 1 <= i <= numParts + 1
    ensures PartStart(total, numParts, i) <= total
  {
    var c, r := total / numParts, total % numParts;
    MulMonotonic(i - 1, numParts, c);
    assert numParts * c + r == total;
  }

  lemma MulMonotonic(a: nat, b: nat, c: nat)
    requires a <= b
    ensures a * c <= b * c
  {
  }

  /** Any two parts differ in size by at most one line. */
  lemma PartSizesBalanced(total: nat, numParts: nat, i: nat, j: nat)
    requires numParts > 0
    ensures -1 <= PartSize(total, numParts, i) - PartSize(total, numParts, j) <= 1
  {
  }

  /** With fewer lines than parts, the first parts hold one line each and the rest none. */
  lemma FewLines(total: nat, numParts: nat, i: nat)
    requires 0 < total < numParts && 1 <= i <= numParts
    ensures PartSize(total, numParts, i) == if i <= total then 1 else 0
  {
  }

  /** The number of part files the script writes. */
  const NumParts: nat := 5

  /** The whole script: the part files' contents, each its lines joined by newlines. */
  method SplitProxies(text: string) returns (files: seq<string>)
    ensures |files| == NumParts
    ensures exists parts :: |parts| == NumParts && Concat(parts) == CleanLines(text) &&
              (forall i :: 0 <= i < NumParts ==> |parts[i]| == PartSize(|CleanLines(text)|, NumParts, i + 1)) &&
              forall i :: 0 <= i < NumParts ==> files[i] == Join(parts[i], "\n")
  {
    var lines := CleanLines(text);
    var parts := SplitParts(lines, NumParts);
    files := seq(NumParts, i requires 0 <= i < NumParts => Join(parts[i], "\n"));
  }
}
