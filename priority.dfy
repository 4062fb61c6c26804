/** Request priority classes and the case-insensitive mapping from their names. */
module Priorities {

  /** `RequestPriority`: four classes, totally ordered by their value. */
  datatype Priority = Low | Normal | High | Urgent {
    function Value(): (v: int)
      ensures 1 <= v <= 4
    {
      match this
      case Low => 1
      case Normal => 2
      case High => 3
      case Urgent => 4
    }

    /** The enum member's name, as reported in records and queue sizes. */
    function Name(): string {
      match this
      case Low => "LOW"
      case Normal => "NORMAL"
      case High => "HIGH"
      case Urgent => "URGENT"
    }
  }

  const AllPriorities: set<Priority> := {Low, Normal, High, Urgent}

  lemma EveryPriorityListed()
    ensures forall p: Priority :: p in AllPriorities
  {
    forall p: Priority
      ensures p in AllPriorities
    {
      match p
      case Low =>
      case Normal =>
      case High =>
      case Urgent =>
    }
  }

  /** ASCII lower-casing of one character; other characters are left alone. */
  function LowerChar(c: char): char {
    if 'A' <= c <= 'Z' then (c as int + 32) as char else c
  }

  /** `str.lower()`, restricted to the ASCII letters. */
  function Lower(s: string): string {
    if s == [] then [] else [LowerChar(s[0])] + Lower(s[1..])
  }

  /** Lower-casing keeps the length and maps every character on its own. */
  lemma {:induction false} LowerMeaning(s: string)
    ensures |Lower(s)| == |s|
    ensures forall i :: 0 <= i < |s| ==> Lower(s)[i] == LowerChar(s[i])
  {
    if s != [] {
      LowerMeaning(s[1..]);
    }
  }

  /**
   * `get_priority_from_string`: "low", "normal", "high" and "urgent" in any
   * letter case name their class; every other string falls back to NORMAL.
   */
  function PriorityFromString(s: string): (p: Priority)
    ensures p == Low <==> Lower(s) == "low"
    ensures p == High <==> Lower(s) == "high"
    ensures p == Urgent <==> Lower(s) == "urgent"
    ensures p == Normal <==> Lower(s) != "low" && Lower(s) != "high" && Lower(s) != "urgent"
  {
    var key := Lower(s);
    if key == "low" then Low
    else if key == "normal" then Normal
    else if key == "high" then High
    else if key == "urgent" then Urgent
    else Normal
  }

  lemma LowerIdempotent(s: string)
    ensures Lower(Lower(s)) == Lower(s)
  {
    LowerMeaning(s);
    LowerMeaning(Lower(s));
    assert forall i :: 0 <= i < |s| ==> LowerChar(LowerChar(s[i])) == LowerChar(s[i]);
  }

  /** Letter case never matters: a name and its lower-cased form map to the same class. */
  lemma PriorityIgnoresCase(s: string)
    ensures PriorityFromString(s) == PriorityFromString(Lower(s))
  {
    LowerIdempotent(s);
  }

  /** Every class's upper-case name maps back to that class. */
  lemma PriorityNameRoundTrip(p: Priority)
    ensures PriorityFromString(p.Name()) == p
  {
    match p
    case Low => assert Lower("LOW") == "low";
    case Normal => assert Lower("NORMAL") == "normal"; assert PriorityFromString("NORMAL") == Normal;
    case High => assert Lower("HIGH") == "high";
    case Urgent => assert Lower("URGENT") == "urgent";
  }
}
