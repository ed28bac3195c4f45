/**
Domain names in the DNS server of hw2: the dotted text of a name, its wire form (section 3.1 of
RFC 1035), the parser that follows compression pointers (section 4.1.4), and the encoder.
*/
module DnsNames {
  import opened Octets
  import opened Sequences

  const DOT: Octet := 46

  type Name = seq<Text>

  /** Every label followed by a dot. */
  function Dotted(labels: Name): Text {
    if labels == [] then [] else labels[0] + [DOT] + Dotted(labels[1..])
  }

  /** The labels with a dot between each two. */
  function Joined(labels: Name): Text {
    if labels == [] then []
    else if |labels| == 1 then labels[0]
    else labels[0] + [DOT] + Joined(labels[1..])
  }

  lemma {:induction false} DottedIsJoined(labels: Name)
    requires labels != []
    ensures Dotted(labels) == Joined(labels) + [DOT]
  {
    if |labels| == 1 {
      assert Dotted(labels[1..]) == [];
    } else {
      DottedIsJoined(labels[1..]);
    }
  }

  /** Every label behind its length, without the closing zero. */
  function Wire(labels: Name): Text {
    if labels == [] then [] else [|labels[0]| % 256] + labels[0] + Wire(labels[1..])
  }

  // ---------------------------------------------------------------------------------------
  // Parsing
  // ---------------------------------------------------------------------------------------

  /** The two top bits are set: (in & 0xC0) == 0xC0 on one octet. */
  predicate IsPointer(c: Octet) {
    c >= 192
  }

  /** The two bits, as the program tests them. */
  lemma PointerIsTopBits(c: Octet)
    ensures IsPointer(c) <==> (c as bv8) & 0xC0 == 0xC0
  {
  }

  /** From p the name ends after at most that many jumps: labels and pointers lie inside the
      chunk, and their lengths and offsets, one signed char each, are not negative. */
  ghost predicate EndsWithin(chunk: Text, p: nat, jumps: nat)
    decreases jumps, |chunk| - p
  {
    p < |chunk| &&
    if chunk[p] == 0 then true
    else if IsPointer(chunk[p]) then
      jumps > 0 && p + 1 < |chunk| && chunk[p + 1] < 128 && EndsWithin(chunk, chunk[p + 1], jumps - 1)
    else
      chunk[p] < 128 && p + 1 + chunk[p] < |chunk| && EndsWithin(chunk, p + 1 + chunk[p], jumps)
  }

  /** The labels of the name at p: those of the run, and behind a pointer those it leads to. */
  ghost function LabelsAt(chunk: Text, p: nat, jumps: nat): Name
    requires EndsWithin(chunk, p, jumps)
    decreases jumps, |chunk| - p
  {
    if chunk[p] == 0 then []
    else if IsPointer(chunk[p]) then LabelsAt(chunk, chunk[p + 1], jumps - 1)
    else [chunk[p + 1..p + 1 + chunk[p]]] + LabelsAt(chunk, p + 1 + chunk[p], jumps)
  }

  /** A label is followed by a pointer to the root. */
  ghost predicate DanglesAt(chunk: Text, p: nat, jumps: nat)
    requires EndsWithin(chunk, p, jumps)
    decreases jumps, |chunk| - p
  {
    if chunk[p] == 0 then false
    else if IsPointer(chunk[p]) then DanglesAt(chunk, chunk[p + 1], jumps - 1)
    else
      var q := p + 1 + chunk[p];
      DanglesAt(chunk, q, jumps) || (chunk[q] != 0 && LabelsAt(chunk, q, jumps) == [])
  }

  /** What the program spells out: a dot goes behind a label when the next octet is not zero. */
  ghost function Spelled(chunk: Text, p: nat, jumps: nat): Text
    requires EndsWithin(chunk, p, jumps)
    decreases jumps, |chunk| - p
  {
    if chunk[p] == 0 then []
    else if IsPointer(chunk[p]) then Spelled(chunk, chunk[p + 1], jumps - 1)
    else
      var q := p + 1 + chunk[p];
      chunk[p + 1..q] + (if chunk[q] != 0 then [DOT] else []) + Spelled(chunk, q, jumps)
  }

  lemma {:induction false} RootDoesNotDangle(chunk: Text, p: nat, jumps: nat)
    requires EndsWithin(chunk, p, jumps) && LabelsAt(chunk, p, jumps) == []
    ensures Spelled(chunk, p, jumps) == [] && !DanglesAt(chunk, p, jumps)
    decreases jumps, |chunk| - p
  {
    if chunk[p] != 0 {
      RootDoesNotDangle(chunk, chunk[p + 1], jumps - 1);
    }
  }

  /** The program spells the expanded name, with one dot too many exactly when a label is
      followed by a pointer to the root. */
  lemma {:induction false} SpelledIsJoined(chunk: Text, p: nat, jumps: nat)
    requires EndsWithin(chunk, p, jumps)
    ensures Spelled(chunk, p, jumps)
         == Joined(LabelsAt(chunk, p, jumps)) + (if DanglesAt(chunk, p, jumps) then [DOT] else [])
    decreases jumps, |chunk| - p
  {
    if chunk[p] == 0 {
    } else if IsPointer(chunk[p]) {
      SpelledIsJoined(chunk, chunk[p + 1], jumps - 1);
    } else {
      var q := p + 1 + chunk[p];
      var rest := LabelsAt(chunk, q, jumps);
      assert LabelsAt(chunk, p, jumps)[1..] == rest;
      SpelledIsJoined(chunk, q, jumps);
      if rest == [] {
        RootDoesNotDangle(chunk, q, jumps);
      }
    }
  }

  /** The label a and a pointer to the zero behind it. */
  lemma DotTooMany()
    ensures var chunk: Text := [1, 97, 192, 4, 0];
            && EndsWithin(chunk, 0, 1) && LabelsAt(chunk, 0, 1) == [[97]]
            && Spelled(chunk, 0, 1) == [97, DOT] && Joined([[97]]) == [97]
  {
    var chunk: Text := [1, 97, 192, 4, 0];
    assert chunk[1..2] == [97];
    assert EndsWithin(chunk, 4, 0) && LabelsAt(chunk, 4, 0) == [] && Spelled(chunk, 4, 0) == [];
    assert EndsWithin(chunk, 2, 1) && LabelsAt(chunk, 2, 1) == [] && Spelled(chunk, 2, 1) == [];
  }

  // ---------------------------------------------------------------------------------------
  // When the parser ends
  // ---------------------------------------------------------------------------------------

  /** Where the run of labels at p stops: at a zero, a pointer, a length that is negative as a
      char, or outside the chunk. */
  function RunEnd(chunk: Text, p: nat): nat
    decreases |chunk| - p
  {
    if p < |chunk| && 0 < chunk[p] < 128 then RunEnd(chunk, p + 1 + chunk[p]) else p
  }

  predicate EndsInRoot(chunk: Text, p: nat) {
    RunEnd(chunk, p) < |chunk| && chunk[RunEnd(chunk, p)] == 0
  }

  /** The offset the pointer behind the run at p leads to. */
  function Target(chunk: Text, p: nat): Option<nat> {
    var e := RunEnd(chunk, p);
    if e + 1 < |chunk| && IsPointer(chunk[e]) && chunk[e + 1] < 128 then Some(chunk[e + 1]) else None
  }

  lemma {:induction false} EndsByRuns(chunk: Text, p: nat, jumps: nat)
    ensures EndsWithin(chunk, p, jumps) <==>
      EndsInRoot(chunk, p)
      || (jumps > 0 && Target(chunk, p).Some? && EndsWithin(chunk, Target(chunk, p).value, jumps - 1))
    decreases |chunk| - p
  {
    if p < |chunk| && 0 < chunk[p] < 128 {
      EndsByRuns(chunk, p + 1 + chunk[p], jumps);
    }
  }

  /** Where the parser is after k jumps, if it has not ended or failed before. */
  function AfterJumps(chunk: Text, p: nat, k: nat): Option<nat>
    decreases k
  {
    if k == 0 then Some(p)
    else if EndsInRoot(chunk, p) || Target(chunk, p).None? then None
    else AfterJumps(chunk, Target(chunk, p).value, k - 1)
  }

  lemma {:induction false} JumpOnce(chunk: Text, p: nat, k: nat)
    ensures AfterJumps(chunk, p, k + 1)
         == match AfterJumps(chunk, p, k)
            case None => None
            case Some(q) => if EndsInRoot(chunk, q) then None else Target(chunk, q)
    decreases k
  {
    if k > 0 && !EndsInRoot(chunk, p) && Target(chunk, p).Some? {
      JumpOnce(chunk, Target(chunk, p).value, k - 1);
    } else if k == 0 && !EndsInRoot(chunk, p) && Target(chunk, p).Some? {
      assert AfterJumps(chunk, Target(chunk, p).value, 0) == Target(chunk, p);
    }
  }

  /** A run with a root at its end is reached by then. */
  lemma {:induction false} RootReached(chunk: Text, p: nat, jumps: nat) returns (k: nat)
    requires EndsWithin(chunk, p, jumps)
    ensures k <= jumps && AfterJumps(chunk, p, k).Some? && EndsInRoot(chunk, AfterJumps(chunk, p, k).value)
    decreases jumps
  {
    EndsByRuns(chunk, p, jumps);
    if EndsInRoot(chunk, p) {
      k := 0;
    } else {
      var m := RootReached(chunk, Target(chunk, p).value, jumps - 1);
      k := m + 1;
    }
  }

  lemma {:induction false} RootEnds(chunk: Text, p: nat, jumps: nat, k: nat)
    requires k <= jumps && AfterJumps(chunk, p, k).Some? && EndsInRoot(chunk, AfterJumps(chunk, p, k).value)
    ensures EndsWithin(chunk, p, jumps)
    decreases jumps
  {
    EndsByRuns(chunk, p, jumps);
    if !EndsInRoot(chunk, p) {
      RootEnds(chunk, Target(chunk, p).value, jumps - 1, k - 1);
    }
  }

  lemma {:induction false} JumpsCompose(chunk: Text, p: nat, j: nat, k: nat)
    requires AfterJumps(chunk, p, j).Some?
    ensures AfterJumps(chunk, p, j + k) == AfterJumps(chunk, AfterJumps(chunk, p, j).value, k)
    decreases j
  {
    if j > 0 {
      JumpsCompose(chunk, Target(chunk, p).value, j - 1, k);
    }
  }

  lemma {:induction false} JumpsBefore(chunk: Text, p: nat, j: nat, k: nat)
    requires AfterJumps(chunk, p, k).Some? && j <= k
    ensures AfterJumps(chunk, p, j).Some?
    decreases j
  {
    if j > 0 {
      JumpsBefore(chunk, Target(chunk, p).value, j - 1, k - 1);
    }
  }

  lemma {:induction false} JumpsForEver(chunk: Text, q: nat, period: nat, k: nat)
    requires period > 0 && AfterJumps(chunk, q, period) == Some(q)
    ensures AfterJumps(chunk, q, k).Some?
    decreases k
  {
    if k <= period {
      JumpsBefore(chunk, q, k, period);
    } else {
      JumpsCompose(chunk, q, period, k - period);
      JumpsForEver(chunk, q, period, k - period);
    }
  }

  /** The parser comes back to an offset it has jumped from or begun at. */
  ghost predicate Returns(chunk: Text, p: nat) {
    exists j, k {:trigger AfterJumps(chunk, p, j), AfterJumps(chunk, p, k)} ::
      0 <= j < k && AfterJumps(chunk, p, j).Some? && AfterJumps(chunk, p, j) == AfterJumps(chunk, p, k)
  }

  /** It comes to a run that stops at no zero and no usable pointer. */
  ghost predicate FallsOut(chunk: Text, p: nat) {
    exists k: nat ::
      && AfterJumps(chunk, p, k).Some?
      && !EndsInRoot(chunk, AfterJumps(chunk, p, k).value)
      && Target(chunk, AfterJumps(chunk, p, k).value).None?
  }

  lemma ReturnsGoesOn(chunk: Text, p: nat, k: nat)
    requires Returns(chunk, p)
    ensures AfterJumps(chunk, p, k).Some?
  {
    var i, j :| 0 <= i < j && AfterJumps(chunk, p, i).Some? && AfterJumps(chunk, p, i) == AfterJumps(chunk, p, j);
    var q := AfterJumps(chunk, p, i).value;
    JumpsCompose(chunk, p, i, j - i);
    if k <= i {
      JumpsBefore(chunk, p, k, i);
    } else {
      JumpsForEver(chunk, q, j - i, k - i);
      JumpsCompose(chunk, p, i, k - i);
    }
  }

  /** More offsets than there are octets: one comes twice. */
  lemma {:induction false} OneTwice(offsets: seq<nat>, n: nat)
    requires |offsets| > n && forall i :: 0 <= i < |offsets| ==> offsets[i] < n
    ensures exists j, k :: 0 <= j < k < |offsets| && offsets[j] == offsets[k]
    decreases n
  {
    assert offsets[0] < n;
    if i :| 0 <= i < |offsets| && offsets[i] == n - 1 {
      var others := offsets[..i] + offsets[i + 1..];
      if !exists k :: 0 <= k < |others| && others[k] == n - 1 {
        OneTwice(others, n - 1);
        var j, k :| 0 <= j < k < |others| && others[j] == others[k];
        var j', k' := if j < i then j else j + 1, if k < i then k else k + 1;
        assert offsets[j'] == others[j] && offsets[k'] == others[k];
      } else {
        var k :| 0 <= k < |others| && others[k] == n - 1;
        var k' := if k < i then k else k + 1;
        assert offsets[k'] == others[k];
        assert if k' < i then offsets[k'] == offsets[i] else offsets[i] == offsets[k'];
      }
    } else {
      OneTwice(offsets, n - 1);
    }
  }

  lemma JumpsFromInside(chunk: Text, p: nat, k: nat)
    requires AfterJumps(chunk, p, k + 1).Some?
    ensures AfterJumps(chunk, p, k).Some? && AfterJumps(chunk, p, k).value < |chunk|
  {
    JumpOnce(chunk, p, k);
    RunEndIsBehind(chunk, AfterJumps(chunk, p, k).value);
  }

  lemma {:induction false} RunEndIsBehind(chunk: Text, p: nat)
    ensures RunEnd(chunk, p) >= p
    decreases |chunk| - p
  {
    if p < |chunk| && 0 < chunk[p] < 128 {
      RunEndIsBehind(chunk, p + 1 + chunk[p]);
    }
  }

  lemma ManyJumpsReturn(chunk: Text, p: nat)
    requires AfterJumps(chunk, p, |chunk| + 1).Some?
    ensures Returns(chunk, p)
  {
    var n := |chunk|;
    forall k: nat | k <= n
      ensures AfterJumps(chunk, p, k).Some? && AfterJumps(chunk, p, k).value < n
    {
      JumpsBefore(chunk, p, k + 1, n + 1);
      JumpsFromInside(chunk, p, k);
    }
    var offsets := seq(n + 1, k requires 0 <= k <= n => AfterJumps(chunk, p, k).value);
    OneTwice(offsets, n);
    var j, k :| 0 <= j < k < |offsets| && offsets[j] == offsets[k];
    assert AfterJumps(chunk, p, j) == AfterJumps(chunk, p, k);
  }

  /** After how many jumps the parser is at its last run. */
  lemma {:induction false} LastRun(chunk: Text, p: nat, n: nat) returns (k: nat)
    requires AfterJumps(chunk, p, n).None?
    ensures k < n && AfterJumps(chunk, p, k).Some? && AfterJumps(chunk, p, k + 1).None?
  {
    if AfterJumps(chunk, p, n - 1).Some? {
      k := n - 1;
    } else {
      k := LastRun(chunk, p, n - 1);
    }
  }

  /** The parser ends if and only if it ends within as many jumps as the chunk has octets: exactly
      when it neither comes back to an offset nor falls out of the chunk's names. */
  lemma ParserEnds(chunk: Text, p: nat)
    ensures (exists n :: EndsWithin(chunk, p, n)) <==> EndsWithin(chunk, p, |chunk|)
    ensures EndsWithin(chunk, p, |chunk|) <==> !Returns(chunk, p) && !FallsOut(chunk, p)
  {
    if n :| EndsWithin(chunk, p, n) {
      EndingDoesNotFail(chunk, p, n);
    }
    if !Returns(chunk, p) && !FallsOut(chunk, p) {
      if AfterJumps(chunk, p, |chunk| + 1).Some? {
        ManyJumpsReturn(chunk, p);
      }
      var k := LastRun(chunk, p, |chunk| + 1);
      JumpOnce(chunk, p, k);
      RootEnds(chunk, p, |chunk|, k);
    }
  }

  lemma EndingDoesNotFail(chunk: Text, p: nat, n: nat)
    requires EndsWithin(chunk, p, n)
    ensures !Returns(chunk, p) && !FallsOut(chunk, p)
  {
    var k := RootReached(chunk, p, n);
    JumpOnce(chunk, p, k);
    if Returns(chunk, p) {
      ReturnsGoesOn(chunk, p, k + 1);
    }
    if FallsOut(chunk, p) {
      var m: nat :| && AfterJumps(chunk, p, m).Some?
                    && !EndsInRoot(chunk, AfterJumps(chunk, p, m).value)
                    && Target(chunk, AfterJumps(chunk, p, m).value).None?;
      JumpOnce(chunk, p, m);
      if m < k {
        JumpsBefore(chunk, p, m + 1, k);
      } else if k < m {
        JumpsBefore(chunk, p, k + 1, m);
      }
    }
  }

  /** Every pointer leads to before the run that holds it, as section 4.1.4 of RFC 1035 has it. */
  ghost predicate Descending(chunk: Text, start: nat, p: nat)
    decreases start, |chunk| - p
  {
    p < |chunk| &&
    if chunk[p] == 0 then true
    else if IsPointer(chunk[p]) then
      && p + 1 < |chunk|
      && chunk[p + 1] < 128
      && chunk[p + 1] < start
      && Descending(chunk, chunk[p + 1], chunk[p + 1])
    else chunk[p] < 128 && p + 1 + chunk[p] < |chunk| && Descending(chunk, start, p + 1 + chunk[p])
  }

  /** Then the parser ends, after no more jumps than the first run's offset. */
  lemma {:induction false} DescendingPointersEnd(chunk: Text, start: nat, p: nat)
    requires Descending(chunk, start, p)
    ensures EndsWithin(chunk, p, start)
    decreases start, |chunk| - p
  {
    if chunk[p] == 0 {
    } else if IsPointer(chunk[p]) {
      var n := chunk[p + 1];
      DescendingPointersEnd(chunk, n, n);
      MoreJumps(chunk, n, n, start - 1);
    } else {
      DescendingPointersEnd(chunk, start, p + 1 + chunk[p]);
    }
  }

  /** What is read does not depend on the bound. */
  lemma {:induction false} MoreJumps(chunk: Text, p: nat, m: nat, n: nat)
    requires EndsWithin(chunk, p, m) && m <= n
    ensures EndsWithin(chunk, p, n)
    ensures Spelled(chunk, p, n) == Spelled(chunk, p, m) && LabelsAt(chunk, p, n) == LabelsAt(chunk, p, m)
    decreases m, |chunk| - p
  {
    if chunk[p] == 0 {
    } else if IsPointer(chunk[p]) {
      MoreJumps(chunk, chunk[p + 1], m - 1, n - 1);
    } else {
      MoreJumps(chunk, p + 1 + chunk[p], m, n);
    }
  }

  /** Nothing lies before a run at the chunk's start: of the compressed names in the program's own
      call none is descending, and those it finishes have pointers that lead forward. */
  lemma DescendingFromStartHasNoPointer(chunk: Text, p: nat)
    requires Descending(chunk, 0, p)
    ensures EndsWithin(chunk, p, 0)
    decreases |chunk| - p
  {
    DescendingPointersEnd(chunk, 0, p);
  }

  /** Two names the parser never finishes, at the start of any buffer: a pointer to itself, and a
      label in front of a pointer back to it. */
  lemma LoopsNeverEnd(chunk: Text, n: nat)
    requires |chunk| >= 4
    ensures chunk[..2] == [192, 0] ==> !EndsWithin(chunk, 0, n)
    ensures chunk[0] == 1 && chunk[2..4] == [192, 0] ==> !EndsWithin(chunk, 0, n)
  {
    assert chunk[..2] == [192, 0] ==> chunk[0] == 192 && chunk[1] == 0;
    assert chunk[2..4] == [192, 0] ==> chunk[2] == 192 && chunk[3] == 0;
    if chunk[..2] == [192, 0] || (chunk[0] == 1 && chunk[2..4] == [192, 0]) {
      assert RunEnd(chunk, 0) == if chunk[0] == 1 then 2 else 0;
      assert Target(chunk, 0) == Some(0) && !EndsInRoot(chunk, 0);
      assert AfterJumps(chunk, 0, 1) == AfterJumps(chunk, 0, 0);
      if EndsWithin(chunk, 0, n) {
        EndingDoesNotFail(chunk, 0, n);
      }
    }
  }

  /** memcpy to buf + at. */
  method Copy(buf: array<Octet>, at: nat, data: Text) returns (next: nat)
    requires at + |data| <= buf.Length
    modifies buf
    ensures next == at + |data| && buf[..next] == old(buf[..at]) + data
    ensures forall k :: next <= k < buf.Length ==> buf[k] == old(buf[k])
  {
    for i := 0 to |data|
      invariant buf[..at + i] == old(buf[..at]) + data[..i]
      invariant forall k :: at + i <= k < buf.Length ==> buf[k] == old(buf[k])
    {
      buf[at + i] := data[i];
    }
    next := at + |data|;
  }

  /** dns_parse_name: appends the spelled name at out[len0..] and returns the new length. */
  method ParseName(chunk: Text, ptr: nat, out: array<Octet>, len0: nat, ghost jumps: nat) returns (len: nat)
    requires EndsWithin(chunk, ptr, jumps)
    requires len0 + |Spelled(chunk, ptr, jumps)| <= out.Length
    modifies out
    ensures len == len0 + |Spelled(chunk, ptr, jumps)|
    ensures out[..len] == old(out[..len0]) + Spelled(chunk, ptr, jumps)
    ensures forall k :: len <= k < out.Length ==> out[k] == old(out[k])
    decreases jumps
  {
    ghost var whole := out[..len0] + Spelled(chunk, ptr, jumps);
    var p := ptr;
    len := len0;
    while true
      invariant EndsWithin(chunk, p, jumps) && len0 <= len <= out.Length
      invariant out[..len] + Spelled(chunk, p, jumps) == whole
      invariant forall k :: len <= k < out.Length ==> out[k] == old(out[k])
      decreases |chunk| - p
    {
      var flag := chunk[p];
      if flag == 0 {
        break;
      }
      if IsPointer(flag) {
        len := ParseName(chunk, chunk[p + 1], out, len, jumps - 1);
        break;
      }
      var q: nat := p + 1 + flag;
      ghost var text, dot := chunk[p + 1..q], if chunk[q] != 0 then [DOT] else [];
      Assoc(out[..len], text + dot, Spelled(chunk, q, jumps));
      Assoc(out[..len], text, dot);
      len := Copy(out, len, chunk[p + 1..q]);
      if chunk[q] != 0 {
        len := Copy(out, len, [DOT]);
      }
      p := q;
    }
  }
}
