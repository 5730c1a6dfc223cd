/**
  The deterministic assessor: scores the facts a worker reported against the expected facts.
 */
module Assessment {
  import opened Text
  import opened Json
  import opened StableText
  import opened Facts

  datatype Expected = Expected(outcome: string, facts: Json, allowedActions: seq<string>, requiredEvidence: seq<string>)

  datatype Verdict = Verdict(
    completed: bool, formatCompliant: bool, substantiveAccepted: bool, fullAcceptance: bool,
    qualityScore: real, correctFacts: nat, totalFacts: nat,
    unsupportedClaims: seq<string>, missingOrIncorrectFacts: seq<string>)

  /** `new Map(leaves.map(item => [item.path, item.value]))`: a later leaf replaces an earlier one. */
  function ByPath(leaves: seq<Leaf>): map<string, Json> {
    if leaves == [] then map[]
    else
      var last := leaves[|leaves| - 1];
      ByPath(leaves[..|leaves| - 1])[last.path := last.value]
  }

  /** The other side reports the leaf's path with a value of the same canonical text. */
  predicate Confirms(byPath: map<string, Json>, leaf: Leaf, le: Collation) {
    leaf.path in byPath && Stable(byPath[leaf.path], le) == Stable(leaf.value, le)
  }

  function CountConfirmed(leaves: seq<Leaf>, byPath: map<string, Json>, le: Collation): nat {
    if leaves == [] then 0
    else (if Confirms(byPath, leaves[0], le) then 1 else 0) + CountConfirmed(leaves[1..], byPath, le)
  }

  function Missing(leaves: seq<Leaf>, byPath: map<string, Json>, le: Collation): seq<string> {
    if leaves == [] then []
    else (if Confirms(byPath, leaves[0], le) then [] else [leaves[0].path]) + Missing(leaves[1..], byPath, le)
  }

  function Unsupported(leaves: seq<Leaf>, byPath: map<string, Json>, le: Collation): seq<string> {
    if leaves == [] then []
    else
      (if leaves[0].value != Null && !Confirms(byPath, leaves[0], le) then [leaves[0].path] else [])
      + Unsupported(leaves[1..], byPath, le)
  }

  function Paths(leaves: seq<Leaf>): (r: seq<string>)
    ensures |r| == |leaves|
  {
    seq(|leaves|, i requires 0 <= i < |leaves| => leaves[i].path)
  }

  /** `output.facts` when it is an object, and the empty object otherwise. */
  function ReportedFacts(output: Json): (facts: Json)
    ensures facts.Obj?
  {
    var facts := Field(output, "facts");
    if facts.Some? && facts.value.Obj? then facts.value else Obj([])
  }

  /** `output.evidence` is an array that includes every required item. */
  predicate EvidenceComplete(output: Json, required: seq<string>) {
    var evidence := Field(output, "evidence");
    && evidence.Some? && evidence.value.Arr?
    && forall i :: 0 <= i < |required| ==> Str(required[i]) in evidence.value.items
  }

  /** `output.actions` is an array of allowed strings. */
  predicate ActionsAllowed(output: Json, allowed: seq<string>) {
    var actions := Field(output, "actions");
    && actions.Some? && actions.value.Arr?
    && forall i :: 0 <= i < |actions.value.items| ==>
         actions.value.items[i].Str? && actions.value.items[i].text in allowed
  }

  predicate Substantive(output: Json, expected: Expected, correct: nat, total: nat) {
    && Field(output, "outcome") == Some(Str(expected.outcome))
    && correct == total
    && EvidenceComplete(output, expected.requiredEvidence)
    && ActionsAllowed(output, expected.allowedActions)
  }

  /** `assess(candidate, verification, expected)`; a null artifact is the value Null. */
  function Assess(candidate: Json, verification: Json, expected: Expected, le: Collation): Verdict {
    var parsed := Field(candidate, "parsed");
    var expectedLeaves := Leaves(expected.facts, "");
    if parsed.None? || !parsed.value.Obj? then
      Verdict(false, false, false, false, 0.0, 0, |expectedLeaves|, [], Paths(expectedLeaves))
    else
      AssessOutput(parsed.value, Field(verification, "formatCompliant") == Some(Bool(true)), expected, le)
  }

  /** The verdict on an output that is an object. */
  function AssessOutput(output: Json, compliant: bool, expected: Expected, le: Collation): Verdict {
    var actualLeaves, expectedLeaves := Leaves(ReportedFacts(output), ""), Leaves(expected.facts, "");
    var actualByPath, expectedByPath := ByPath(actualLeaves), ByPath(expectedLeaves);
    var correct := CountConfirmed(expectedLeaves, actualByPath, le);
    var total := |expectedLeaves|;
    var substantive := Substantive(output, expected, correct, total);
    Verdict(true, compliant, substantive, compliant && substantive,
            if total != 0 then correct as real / total as real else 1.0, correct, total,
            Unsupported(actualLeaves, expectedByPath, le), Missing(expectedLeaves, actualByPath, le))
  }

  // ------------------------------------------------------- facts about lists

  lemma {:induction false} CountsPartition(leaves: seq<Leaf>, byPath: map<string, Json>, le: Collation)
    ensures CountConfirmed(leaves, byPath, le) + |Missing(leaves, byPath, le)| == |leaves|
  {
    if leaves != [] {
      CountsPartition(leaves[1..], byPath, le);
    }
  }

  lemma {:induction false} MissingMembers(leaves: seq<Leaf>, byPath: map<string, Json>, le: Collation, path: string)
    ensures path in Missing(leaves, byPath, le)
       <==> exists i :: 0 <= i < |leaves| && leaves[i].path == path && !Confirms(byPath, leaves[i], le)
  {
    if leaves != [] {
      MissingMembers(leaves[1..], byPath, le, path);
      if i :| 0 <= i < |leaves| && leaves[i].path == path && !Confirms(byPath, leaves[i], le) {
        assert i > 0 ==> leaves[1..][i - 1] == leaves[i];
      }
      if i :| 0 <= i < |leaves[1..]| && leaves[1..][i].path == path && !Confirms(byPath, leaves[1..][i], le) {
        assert leaves[i + 1] == leaves[1..][i];
      }
    }
  }

  lemma {:induction false} UnsupportedMembers(leaves: seq<Leaf>, byPath: map<string, Json>, le: Collation, path: string)
    ensures path in Unsupported(leaves, byPath, le)
       <==> exists i :: 0 <= i < |leaves| && leaves[i].path == path && leaves[i].value != Null && !Confirms(byPath, leaves[i], le)
  {
    if leaves != [] {
      UnsupportedMembers(leaves[1..], byPath, le, path);
      if i :| 0 <= i < |leaves| && leaves[i].path == path && leaves[i].value != Null && !Confirms(byPath, leaves[i], le) {
        assert i > 0 ==> leaves[1..][i - 1] == leaves[i];
      }
      if i :| 0 <= i < |leaves[1..]| && leaves[1..][i].path == path
              && leaves[1..][i].value != Null && !Confirms(byPath, leaves[1..][i], le) {
        assert leaves[i + 1] == leaves[1..][i];
      }
    }
  }

  lemma {:induction false} ByPathKeys(leaves: seq<Leaf>, path: string)
    ensures path in ByPath(leaves) <==> exists i :: 0 <= i < |leaves| && leaves[i].path == path
  {
    if leaves != [] {
      ByPathKeys(leaves[..|leaves| - 1], path);
    }
  }

  /** A path is looked up as the value of its last leaf. */
  lemma {:induction false} LastAt(leaves: seq<Leaf>, path: string) returns (last: Leaf)
    requires exists i :: 0 <= i < |leaves| && leaves[i].path == path
    ensures last in leaves && last.path == path
    ensures path in ByPath(leaves) && ByPath(leaves)[path] == last.value
  {
    var n := |leaves| - 1;
    if leaves[n].path == path {
      last := leaves[n];
    } else {
      var i :| 0 <= i < |leaves| && leaves[i].path == path;
      assert leaves[..n][i].path == path;
      last := LastAt(leaves[..n], path);
    }
  }

  /** Leaves of one path print the same text. */
  ghost predicate Consistent(leaves: seq<Leaf>, le: Collation) {
    forall x, y :: x in leaves && y in leaves && x.path == y.path ==> Stable(x.value, le) == Stable(y.value, le)
  }

  // -------------------------------------------------- what the counts mean

  /** Right and missing facts always add up to the facts asked for. */
  lemma CorrectPlusMissing(candidate: Json, verification: Json, expected: Expected, le: Collation)
    ensures var a := Assess(candidate, verification, expected, le);
      && a.correctFacts + |a.missingOrIncorrectFacts| == a.totalFacts == |Leaves(expected.facts, "")|
      && 0.0 <= a.qualityScore <= 1.0
      && (a.completed && a.totalFacts != 0 ==> Scaled(a.qualityScore, a.totalFacts) == a.correctFacts as real)
      && (a.qualityScore == 1.0 <==> a.completed && a.missingOrIncorrectFacts == [])
  {
    var expectedLeaves := Leaves(expected.facts, "");
    var parsed := Field(candidate, "parsed");
    if parsed.Some? && parsed.value.Obj? {
      var m := ByPath(Leaves(ReportedFacts(parsed.value), ""));
      CountsPartition(expectedLeaves, m, le);
      if expectedLeaves != [] {
        Ratio(CountConfirmed(expectedLeaves, m, le), |expectedLeaves|);
      }
    }
  }

  function Scaled(score: real, total: nat): real {
    score * total as real
  }

  lemma Ratio(part: nat, whole: nat)
    requires part <= whole && whole != 0
    ensures 0.0 <= part as real / whole as real <= 1.0
    ensures part as real / whole as real == 1.0 <==> part == whole
    ensures Scaled(part as real / whole as real, whole) == part as real
  {
  }

  /**
    What an answer must be to be accepted: an object with the expected outcome, no fact missing or wrong, every
    required piece of evidence among its evidence, and nothing but allowed actions.
   */
  lemma AcceptedExactly(candidate: Json, verification: Json, expected: Expected, le: Collation)
    ensures var a, parsed := Assess(candidate, verification, expected, le), Field(candidate, "parsed");
      && (a.completed <==> parsed.Some? && parsed.value.Obj?)
      && (a.formatCompliant <==> a.completed && Field(verification, "formatCompliant") == Some(Bool(true)))
      && (a.fullAcceptance <==> a.formatCompliant && a.substantiveAccepted)
      && (a.substantiveAccepted <==>
            && a.completed && a.missingOrIncorrectFacts == []
            && Field(parsed.value, "outcome") == Some(Str(expected.outcome))
            && (exists items :: Field(parsed.value, "evidence") == Some(Arr(items))
                  && forall required :: required in expected.requiredEvidence ==> Str(required) in items)
            && (exists items :: Field(parsed.value, "actions") == Some(Arr(items))
                  && forall item :: item in items ==> exists allowed :: allowed in expected.allowedActions && item == Str(allowed)))
  {
    var a, parsed := Assess(candidate, verification, expected, le), Field(candidate, "parsed");
    if a.completed {
      CountsPartition(Leaves(expected.facts, ""), ByPath(Leaves(ReportedFacts(parsed.value), "")), le);
      EvidenceMeans(parsed.value, expected.requiredEvidence);
      ActionsMean(parsed.value, expected.allowedActions);
    }
  }

  lemma EvidenceMeans(output: Json, required: seq<string>)
    ensures EvidenceComplete(output, required) <==>
      exists items :: Field(output, "evidence") == Some(Arr(items)) && forall r :: r in required ==> Str(r) in items
  {
    var evidence := Field(output, "evidence");
    if EvidenceComplete(output, required) {
      assert evidence == Some(Arr(evidence.value.items));
    }
  }

  lemma ActionsMean(output: Json, allowed: seq<string>)
    ensures ActionsAllowed(output, allowed) <==>
      exists items :: Field(output, "actions") == Some(Arr(items))
        && forall item :: item in items ==> exists a :: a in allowed && item == Str(a)
  {
    var actions := Field(output, "actions");
    if ActionsAllowed(output, allowed) {
      var items := actions.value.items;
      forall item | item in items ensures exists a :: a in allowed && item == Str(a) {
        assert item.text in allowed && item == Str(item.text);
      }
      assert actions == Some(Arr(items));
    }
    if items :| actions == Some(Arr(items)) && forall item :: item in items ==> exists a :: a in allowed && item == Str(a) {
      assert forall i :: 0 <= i < |items| ==> items[i] in items;
    }
  }

  /** Leaf `k` is the last one at its path. */
  ghost predicate TellsAt(leaves: seq<Leaf>, k: nat, path: string, value: Json) {
    k < |leaves| && leaves[k] == Leaf(path, value) && forall l :: k < l < |leaves| ==> leaves[l].path != path
  }

  ghost predicate LastTells(leaves: seq<Leaf>, path: string, value: Json) {
    exists k: nat :: TellsAt(leaves, k, path, value)
  }

  lemma TellsAtPrefix(leaves: seq<Leaf>, k: nat, path: string, value: Json)
    requires leaves != [] && leaves[|leaves| - 1].path != path
    ensures TellsAt(leaves[..|leaves| - 1], k, path, value) <==> TellsAt(leaves, k, path, value)
  {
    var n := |leaves| - 1;
    assert forall l :: 0 <= l < n ==> leaves[..n][l] == leaves[l];
  }

  lemma {:induction false} ByPathExactly(leaves: seq<Leaf>, path: string, value: Json)
    ensures path in ByPath(leaves) && ByPath(leaves)[path] == value <==> LastTells(leaves, path, value)
  {
    if leaves != [] {
      var n := |leaves| - 1;
      ByPathExactly(leaves[..n], path, value);
      if leaves[n].path == path {
        assert TellsAt(leaves, n, path, leaves[n].value);
      } else {
        forall k: nat ensures TellsAt(leaves[..n], k, path, value) <==> TellsAt(leaves, k, path, value) {
          TellsAtPrefix(leaves, k, path, value);
        }
      }
    }
  }

  /** The other side tells the leaf's path last with a value of the same text. */
  ghost predicate Confirmed(others: seq<Leaf>, leaf: Leaf, le: Collation) {
    exists value :: LastTells(others, leaf.path, value) && Stable(value, le) == Stable(leaf.value, le)
  }

  lemma ConfirmsMeans(others: seq<Leaf>, leaf: Leaf, le: Collation)
    ensures Confirms(ByPath(others), leaf, le) <==> Confirmed(others, leaf, le)
  {
    var m := ByPath(others);
    if leaf.path in m {
      ByPathExactly(others, leaf.path, m[leaf.path]);
    }
    if value :| LastTells(others, leaf.path, value) && Stable(value, le) == Stable(leaf.value, le) {
      ByPathExactly(others, leaf.path, value);
    }
  }

  /** `paths` are those of the leaves at the positions `at`, which go up. */
  ghost predicate Picked(leaves: seq<Leaf>, at: seq<nat>, paths: seq<string>) {
    && |at| == |paths|
    && (forall i :: 0 <= i < |at| ==> at[i] < |leaves| && paths[i] == leaves[at[i]].path)
    && (forall i, j :: 0 <= i < j < |at| ==> at[i] < at[j])
  }

  function Later(at: seq<nat>): (r: seq<nat>)
    ensures |r| == |at| && forall i :: 0 <= i < |at| ==> r[i] == at[i] + 1
  {
    seq(|at|, i requires 0 <= i < |at| => at[i] + 1)
  }

  lemma LaterHolds(at: seq<nat>, k: nat)
    ensures k in Later(at) <==> k > 0 && k - 1 in at
  {
    if k > 0 && k - 1 in at {
      var i :| 0 <= i < |at| && at[i] == k - 1;
      assert Later(at)[i] == k;
    }
  }

  lemma PickLater(leaves: seq<Leaf>, at: seq<nat>, paths: seq<string>)
    requires leaves != [] && Picked(leaves[1..], at, paths)
    ensures Picked(leaves, Later(at), paths)
  {
  }

  lemma PickFirst(leaves: seq<Leaf>, at: seq<nat>, paths: seq<string>)
    requires leaves != [] && Picked(leaves, at, paths) && 0 !in at
    ensures Picked(leaves, [0] + at, [leaves[0].path] + paths)
  {
    forall i, j | 0 <= i < j < |[0] + at| ensures ([0] + at)[i] < ([0] + at)[j] {
      assert at[j - 1] in at;
    }
  }

  /** The paths of the leaves that are kept. */
  ghost function Filtered(leaves: seq<Leaf>, keep: Leaf -> bool): seq<string> {
    if leaves == [] then []
    else (if keep(leaves[0]) then [leaves[0].path] else []) + Filtered(leaves[1..], keep)
  }

  ghost predicate KeptAt(leaves: seq<Leaf>, keep: Leaf -> bool, k: nat) {
    k < |leaves| && keep(leaves[k])
  }

  lemma {:induction false} FilteredAt(leaves: seq<Leaf>, keep: Leaf -> bool) returns (at: seq<nat>)
    ensures Picked(leaves, at, Filtered(leaves, keep))
    ensures forall k: nat :: k in at <==> KeptAt(leaves, keep, k)
  {
    if leaves == [] {
      at := [];
    } else {
      var rest := FilteredAt(leaves[1..], keep);
      PickLater(leaves, rest, Filtered(leaves[1..], keep));
      at := Later(rest);
      forall k: nat ensures k in at <==> k > 0 && KeptAt(leaves, keep, k) {
        LaterHolds(rest, k);
        assert k > 0 ==> (k - 1 in rest <==> KeptAt(leaves[1..], keep, k - 1));
      }
      if keep(leaves[0]) {
        PickFirst(leaves, at, Filtered(leaves[1..], keep));
        at := [0] + at;
      }
    }
  }

  lemma {:induction false} MissingIsFiltered(leaves: seq<Leaf>, byPath: map<string, Json>, le: Collation)
    ensures Missing(leaves, byPath, le) == Filtered(leaves, x => !Confirms(byPath, x, le))
  {
    if leaves != [] {
      MissingIsFiltered(leaves[1..], byPath, le);
    }
  }

  lemma {:induction false} UnsupportedIsFiltered(leaves: seq<Leaf>, byPath: map<string, Json>, le: Collation)
    ensures Unsupported(leaves, byPath, le) == Filtered(leaves, (x: Leaf) => x.value != Null && !Confirms(byPath, x, le))
  {
    if leaves != [] {
      UnsupportedIsFiltered(leaves[1..], byPath, le);
    }
  }

  /** The facts an answer reports are what it has under that name, if it is an object. */
  ghost predicate Reports(candidate: Json, facts: Json) {
    exists output :: Field(candidate, "parsed") == Some(Obj(output))
      && (Field(Obj(output), "facts") == Some(facts) || (facts == Obj([]) && forall es :: Field(Obj(output), "facts") != Some(Obj(es))))
      && facts.Obj?
  }

  /**
    The findings, in order: missing or incorrect are the expected leaves the answer does not tell, unsupported
    the leaves it reports, null apart, that the expected facts do not tell.
   */
  lemma FindingsExactly(candidate: Json, verification: Json, expected: Expected, facts: Json, le: Collation)
      returns (missing: seq<nat>, unsupported: seq<nat>)
    requires Reports(candidate, facts)
    ensures var a := Assess(candidate, verification, expected, le);
      var wanted, told := Leaves(expected.facts, ""), Leaves(facts, "");
      && Picked(wanted, missing, a.missingOrIncorrectFacts)
      && (forall k: nat :: k in missing <==> k < |wanted| && !Confirmed(told, wanted[k], le))
      && Picked(told, unsupported, a.unsupportedClaims)
      && (forall k: nat :: k in unsupported <==> k < |told| && told[k].value != Null && !Confirmed(wanted, told[k], le))
  {
    var wanted, told := Leaves(expected.facts, ""), Leaves(facts, "");
    assert ReportedFacts(Field(candidate, "parsed").value) == facts;
    MissingIsFiltered(wanted, ByPath(told), le);
    UnsupportedIsFiltered(told, ByPath(wanted), le);
    missing := FilteredAt(wanted, x => !Confirms(ByPath(told), x, le));
    unsupported := FilteredAt(told, (x: Leaf) => x.value != Null && !Confirms(ByPath(wanted), x, le));
    forall k: nat | k < |wanted| ensures k in missing <==> !Confirmed(told, wanted[k], le) {
      ConfirmsMeans(told, wanted[k], le);
    }
    forall k: nat | k < |told| ensures k in unsupported <==> told[k].value != Null && !Confirmed(wanted, told[k], le) {
      ConfirmsMeans(wanted, told[k], le);
    }
  }

  /** Without an answer that is an object, everything expected is missing and nothing is claimed. */
  lemma NothingAnswered(candidate: Json, verification: Json, expected: Expected, le: Collation)
    requires var parsed := Field(candidate, "parsed"); parsed.None? || !parsed.value.Obj?
    ensures var a, wanted := Assess(candidate, verification, expected, le), Leaves(expected.facts, "");
      && !a.completed && !a.formatCompliant && !a.fullAcceptance && !a.substantiveAccepted && a.qualityScore == 0.0
      && a.unsupportedClaims == [] && a.correctFacts == 0
      && Picked(wanted, seq(|wanted|, i => i), a.missingOrIncorrectFacts)
  {
  }

  /**
    An accepted candidate confirms every expected fact, so what it claims beyond them
    is at paths the expected facts do not have.
   */
  lemma AcceptanceMeans(candidate: Json, verification: Json, expected: Expected, le: Collation)
    requires Field(candidate, "parsed").Some?
    requires Consistent(Leaves(ReportedFacts(Field(candidate, "parsed").value), ""), le)
    ensures var a := Assess(candidate, verification, expected, le);
      a.substantiveAccepted ==>
        && a.missingOrIncorrectFacts == []
        && forall path :: path in a.unsupportedClaims ==> path !in Paths(Leaves(expected.facts, ""))
  {
    var a := Assess(candidate, verification, expected, le);
    if a.substantiveAccepted {
      var reported := Leaves(ReportedFacts(Field(candidate, "parsed").value), "");
      var wanted := Leaves(expected.facts, "");
      CountsPartition(wanted, ByPath(reported), le);
      assert Missing(wanted, ByPath(reported), le) == [];
      forall x | x in wanted ensures Confirms(ByPath(reported), x, le) {
        MissingMembers(wanted, ByPath(reported), le, x.path);
      }
      forall path | path in a.unsupportedClaims ensures path !in Paths(wanted) {
        UnsupportedOutside(reported, wanted, path, le);
      }
    }
  }

  lemma UnsupportedOutside(reported: seq<Leaf>, wanted: seq<Leaf>, path: string, le: Collation)
    requires Consistent(reported, le) && forall x :: x in wanted ==> Confirms(ByPath(reported), x, le)
    requires path in Unsupported(reported, ByPath(wanted), le)
    ensures path !in Paths(wanted)
  {
    if path in Paths(wanted) {
      UnsupportedMembers(reported, ByPath(wanted), le, path);
      var i :| 0 <= i < |reported| && reported[i].path == path && !Confirms(ByPath(wanted), reported[i], le);
      var j :| 0 <= j < |wanted| && Paths(wanted)[j] == path;
      var last := LastAt(wanted, path);
      assert Confirms(ByPath(reported), last, le);
      var told := LastAt(reported, path);
    }
  }
}
