/** The comma-separated broker list of the configuration (utils/brokers.go). */
module Brokers {
  import opened Strings

  /** What survives of the comma-separated parts, in order: each one trimmed, the empty ones dropped. */
  function CleanParts(parts: seq<string>): seq<string>
  {
    if parts == [] then []
    else
      var kept := CleanParts(parts[..|parts| - 1]);
      var broker := TrimSpace(parts[|parts| - 1]);
      if broker != [] then kept + [broker] else kept
  }

  /** There are at most as many kept strings as parts. */
  lemma {:induction false} CleanPartsLength(parts: seq<string>)
    ensures |CleanParts(parts)| <= |parts|
  {
    if parts != [] {
      CleanPartsLength(parts[..|parts| - 1]);
    }
  }

  /** A string is kept exactly when it is the non-empty trimmed form of some part. */
  lemma {:induction false} CleanPartsMembers(parts: seq<string>, x: string)
    ensures x in CleanParts(parts) <==> x != [] && exists p :: p in parts && TrimSpace(p) == x
  {
    if parts != [] {
      var init := parts[..|parts| - 1];
      var last := parts[|parts| - 1];
      CleanPartsMembers(init, x);
      assert parts == init + [last];
      if x != [] && exists p :: p in parts && TrimSpace(p) == x {
        var p :| p in parts && TrimSpace(p) == x;
        if p != last { assert p in init; }
      }
    }
  }

  /** A character that no part contains is in no kept string. */
  lemma {:induction false} CleanPartsExclude(parts: seq<string>, c: char)
    requires forall p :: p in parts ==> c !in p
    ensures forall x :: x in CleanParts(parts) ==> c !in x
  {
    if parts != [] {
      var init := parts[..|parts| - 1];
      var last := parts[|parts| - 1];
      assert forall p :: p in init ==> p in parts;
      CleanPartsExclude(init, c);
      TrimSpaceExcludes(last, c);
    }
  }

  /** A blank broker list (empty or all white space) names no broker. */
  lemma BlankListHasNoBrokers(brokerList: string)
    requires AllSpace(brokerList)
    ensures CleanParts(Split(brokerList, ',')) == []
  {
    assert ',' !in brokerList by {
      forall k | 0 <= k < |brokerList| ensures brokerList[k] != ',' {
        assert IsSpace(brokerList[k]);
      }
    }
    SplitNoSeparator(brokerList, ',');
    assert brokerList == brokerList + [] + [];
    TrimSpaceOf(brokerList, [], []);
  }

  /**
   * `SplitBrokers`: split on commas, trim each part, keep the non-empty ones in order.
   * No result is empty, has white space at either end or contains a comma, and there are
   * at most one more than the commas of the input.
   */
  method SplitBrokers(brokerList: string) returns (brokers: seq<string>)
    ensures brokers == CleanParts(Split(brokerList, ','))
    ensures forall i :: 0 <= i < |brokers| ==> brokers[i] != [] && Trimmed(brokers[i]) && ',' !in brokers[i]
    ensures |brokers| <= Count(brokerList, ',') + 1
  {
    var parts := Split(brokerList, ',');
    brokers := [];
    for i := 0 to |parts|
      invariant brokers == CleanParts(parts[..i])
    {
      var broker := TrimSpace(parts[i]);
      assert parts[..i + 1][..i] == parts[..i];
      if broker != [] {
        brokers := brokers + [broker];
      }
    }
    assert parts[..|parts|] == parts;
    SplitJoin(brokerList, ',');
    CleanPartsLength(parts);
    CleanPartsExclude(parts, ',');
    forall i | 0 <= i < |brokers| ensures brokers[i] != [] && Trimmed(brokers[i]) && ',' !in brokers[i] {
      assert brokers[i] in brokers;
      CleanPartsMembers(parts, brokers[i]);
    }
  }
}
