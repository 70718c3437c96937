/**
 * The Docker gateway's rule file, `docker.rego`, and the three administrative
 * handlers over it: list, add and delete. The file is one string of state on a
 * `RuleFile` object; each handler is one method that runs as a whole, which is
 * what holding the store's reader-writer lock for the whole handler buys.
 * Reading and writing the file can fail; the error the file system would
 * report is an input (`None` when the operation succeeds).
 */
module PolicyStore {
  import opened Wrappers
  import opened Http
  import opened Text

  const RegoFile := "docker.rego"
  const InvalidPayload := "Invalid JSON payload"

  /** The body of a POST to /policies, once decoded. */
  datatype Policy = Policy(name: string, rule: string)

  function ReadFailure(err: string): string { "Failed to read " + RegoFile + ": " + err }
  function WriteFailure(err: string): string { "Failed to write " + RegoFile + ": " + err }

  /** The line a new rule is written as: `name = "rule"`. */
  function RuleLine(p: Policy): string
  {
    p.name + " = " + Quote(p.rule)
  }

  /** The file after appending a rule: a line break, then the rule's line. */
  function Appended(content: string, p: Policy): (r: string)
    ensures content <= r
    ensures r[|content|..] == "\n" + RuleLine(p)
  {
    content + "\n" + RuleLine(p)
  }

  /** The lines that survive a delete of `name`: those in which `name` does not occur, in order. */
  function KeptLines(lines: seq<string>, name: string): (kept: seq<string>)
    ensures |kept| <= |lines|
    ensures forall l :: l in kept ==> l in lines && !Contains(l, name)
    ensures forall l :: l in lines && !Contains(l, name) ==> l in kept
  {
    if lines == [] then []
    else
      var rest := KeptLines(lines[1..], name);
      assert forall l :: l in lines[1..] ==> l in lines;
      assert forall l :: l in lines ==> l == lines[0] || l in lines[1..];
      if Contains(lines[0], name) then rest else [lines[0]] + rest
  }

  /** The file after deleting `name`: every kept line followed by a line break. */
  function Pruned(content: string, name: string): string
  {
    Terminated(KeptLines(Split(content), name))
  }

  /** Filtering the lines of a file piece by piece keeps their order. */
  lemma {:induction false} KeptLinesConcat(xs: seq<string>, ys: seq<string>, name: string)
    ensures KeptLines(xs + ys, name) == KeptLines(xs, name) + KeptLines(ys, name)
  {
    if xs == [] {
      assert xs + ys == ys;
    } else {
      assert (xs + ys)[0] == xs[0];
      assert (xs + ys)[1..] == xs[1..] + ys;
      KeptLinesConcat(xs[1..], ys, name);
    }
  }

  /** Lines in which `name` does not occur are all kept. */
  lemma {:induction false} KeptLinesAll(lines: seq<string>, name: string)
    requires forall l :: l in lines ==> !Contains(l, name)
    ensures KeptLines(lines, name) == lines
  {
    if lines != [] {
      assert lines[0] in lines;
      assert forall l :: l in lines[1..] ==> l in lines;
      KeptLinesAll(lines[1..], name);
    }
  }

  /** One more line of the rewrite: it is appended with its line break when the name does not occur in it. */
  lemma KeptStep(lines: seq<string>, i: nat, name: string)
    requires i < |lines|
    ensures Terminated(KeptLines(lines[..i + 1], name)) ==
      Terminated(KeptLines(lines[..i], name)) + (if Contains(lines[i], name) then "" else lines[i] + "\n")
  {
    assert lines[..i + 1] == lines[..i] + [lines[i]];
    KeptLinesConcat(lines[..i], [lines[i]], name);
    TerminatedConcat(KeptLines(lines[..i], name), KeptLines([lines[i]], name));
    if !Contains(lines[i], name) {
      assert Terminated([lines[i]]) == lines[i] + "\n";
    }
  }

  /** The lines of a pruned file are the kept lines and one empty line after them. */
  lemma PrunedLines(content: string, name: string)
    ensures Split(Pruned(content, name)) == KeptLines(Split(content), name) + [""]
  {
    SplitTerminated(KeptLines(Split(content), name));
  }

  /** After a delete of a non-empty name, no line of the file has the name in it. */
  lemma PrunedExcludesName(content: string, name: string)
    requires name != ""
    ensures forall l :: l in Split(Pruned(content, name)) ==> !Contains(l, name)
  {
    PrunedLines(content, name);
    assert !(name <= "");
  }

  /** A delete keeps exactly the lines in which the name does not occur. */
  lemma PrunedKeepsUnrelated(content: string, name: string, line: string)
    requires line in Split(content)
    ensures line in Split(Pruned(content, name)) <==> !Contains(line, name) || line == ""
  {
    PrunedLines(content, name);
  }

  /** Deleting the empty name deletes every line: every line contains the empty string. */
  lemma PrunedEmptyName(content: string)
    ensures Pruned(content, "") == ""
  {
    var lines := Split(content);
    forall l | l in lines ensures Contains(l, "") {}
    assert KeptLines(lines, "") == [] by {
      if KeptLines(lines, "") != [] {
        assert KeptLines(lines, "")[0] in KeptLines(lines, "");
      }
    }
  }

  /** A second delete of the same non-empty name is not a no-op: it adds one line break. */
  lemma PruneTwice(content: string, name: string)
    requires name != ""
    ensures Pruned(Pruned(content, name), name) == Pruned(content, name) + "\n"
  {
    var kept := KeptLines(Split(content), name);
    PrunedLines(content, name);
    assert !Contains("", name) by { assert !(name <= ""); }
    KeptLinesConcat(kept, [""], name);
    assert KeptLines([""], name) == [""];
    KeptLinesAll(kept, name);
    TerminatedConcat(kept, [""]);
    assert Terminated([""]) == "\n";
  }

  /** After an append, the file's lines are the old ones and the new rule's line, when the name has no line break. */
  lemma AppendedLines(content: string, p: Policy)
    requires IsLine(p.name)
    ensures Split(Appended(content, p)) == Split(content) + [RuleLine(p)]
  {
    SplitConcat(content, RuleLine(p));
    assert IsLine(p.name + " = ") &&  IsLine(Quote(p.rule));
    assert IsLine(RuleLine(p)) by {
      assert RuleLine(p) == (p.name + " = ") + Quote(p.rule);
    }
    SplitOneLine(RuleLine(p));
  }

  /** Deleting a name from a file to which two rules naming it were appended leaves the lines from before that lack it. */
  lemma PruneAppendedPair(base: string, p1: Policy, p2: Policy, name: string)
    requires IsLine(p1.name) && IsLine(p2.name)
    requires name <= p1.name && name <= p2.name
    ensures Pruned(Appended(Appended(base, p1), p2), name) == Terminated(KeptLines(Split(base), name))
  {
    var once := Appended(base, p1);
    var l1, l2 := RuleLine(p1), RuleLine(p2);
    var lines := Split(Appended(once, p2));
    assert lines == (Split(base) + [l1]) + [l2] by {
      AppendedLines(base, p1);
      AppendedLines(once, p2);
    }
    assert KeptLines([l1], name) == [] by { assert name <= l1; }
    assert KeptLines([l2], name) == [] by { assert name <= l2; }
    assert KeptLines(lines, name) == KeptLines(Split(base), name) by {
      KeptLinesConcat(Split(base) + [l1], [l2], name);
      KeptLinesConcat(Split(base), [l1], name);
    }
  }

  /**
   * Deleting "allow" from a file to which "allow-nginx" and "allow-all" were
   * appended removes both, because the match is by substring; the unrelated
   * lines of the file before them are all that is left.
   */
  lemma DeleteAllowRemovesBoth(base: string, nginxRule: string, allRule: string)
    requires forall l :: l in Split(base) ==> !Contains(l, "allow")
    ensures Pruned(Appended(Appended(base, Policy("allow-nginx", nginxRule)), Policy("allow-all", allRule)), "allow")
         == Terminated(Split(base))
  {
    PruneAppendedPair(base, Policy("allow-nginx", nginxRule), Policy("allow-all", allRule), "allow");
    KeptLinesAll(Split(base), "allow");
  }

  /** The rule file, held in memory; each method is one handler holding the lock. */
  class RuleFile {
    var content: string

    constructor (initial: string)
      ensures content == initial
    {
      content := initial;
    }

    /** GET /policies: the file verbatim, or 500 when it cannot be read. */
    method List(readErr: Option<string>) returns (resp: Response)
      ensures readErr.None? ==> resp == Response(StatusOK, content)
      ensures readErr.Some? ==> resp == HttpError(StatusInternalServerError, ReadFailure(readErr.value))
    {
      if readErr.Some? {
        return HttpError(StatusInternalServerError, ReadFailure(readErr.value));
      }
      resp := Response(StatusOK, content);
    }

    /**
     * POST /policies: `payload` is the decoded body, None when it is not valid JSON.
     * A rejected payload or a failed read or write leaves the file as it was.
     */
    method Add(payload: Option<Policy>, readErr: Option<string>, writeErr: Option<string>) returns (resp: Response)
      modifies this
      ensures payload.None? ==> resp == HttpError(StatusBadRequest, InvalidPayload) && content == old(content)
      ensures payload.Some? && readErr.Some? ==>
        resp == HttpError(StatusInternalServerError, ReadFailure(readErr.value)) && content == old(content)
      ensures payload.Some? && readErr.None? && writeErr.Some? ==>
        resp == HttpError(StatusInternalServerError, WriteFailure(writeErr.value)) && content == old(content)
      ensures payload.Some? && readErr.None? && writeErr.None? ==>
        resp == Response(StatusCreated, "") && content == Appended(old(content), payload.value)
    {
      if payload.None? {
        return HttpError(StatusBadRequest, InvalidPayload);
      }
      var policy := payload.value;
      if readErr.Some? {
        return HttpError(StatusInternalServerError, ReadFailure(readErr.value));
      }
      var buffer := content;
      buffer := buffer + "\n" + RuleLine(policy);
      if writeErr.Some? {
        return HttpError(StatusInternalServerError, WriteFailure(writeErr.value));
      }
      content := buffer;
      resp := Response(StatusCreated, "");
    }

    /**
     * DELETE /policies/{name}: rewrites the file with the lines in which `name`
     * does not occur, each followed by a line break. A failed read or write
     * leaves the file as it was.
     */
    method Delete(name: string, readErr: Option<string>, writeErr: Option<string>) returns (resp: Response)
      modifies this
      ensures readErr.Some? ==>
        resp == HttpError(StatusInternalServerError, ReadFailure(readErr.value)) && content == old(content)
      ensures readErr.None? && writeErr.Some? ==>
        resp == HttpError(StatusInternalServerError, WriteFailure(writeErr.value)) && content == old(content)
      ensures readErr.None? && writeErr.None? ==>
        resp == Response(StatusOK, "") && content == Pruned(old(content), name)
    {
      if readErr.Some? {
        resp := HttpError(StatusInternalServerError, ReadFailure(readErr.value));
      } else {
        var updated := Rewrite(Split(content), name);
        if writeErr.Some? {
          resp := HttpError(StatusInternalServerError, WriteFailure(writeErr.value));
        } else {
          content := updated;
          resp := Response(StatusOK, "");
        }
      }
    }
  }

  /** The rewrite loop of the delete handler: the buffer of kept lines, each followed by a line break. */
  method Rewrite(lines: seq<string>, name: string) returns (updated: string)
    ensures updated == Terminated(KeptLines(lines, name))
  {
    updated := "";
    var i := 0;
    while i < |lines|
      invariant 0 <= i <= |lines|
      invariant updated == Terminated(KeptLines(lines[..i], name))
    {
      KeptStep(lines, i, name);
      if !Contains(lines[i], name) {
        updated := updated + lines[i] + "\n";
      }
      i := i + 1;
    }
    assert lines[..i] == lines;
  }
}
