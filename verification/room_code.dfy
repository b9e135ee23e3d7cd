/** The join-code generator shared by both RoomService variants
    (`createRoomCode` / `checkRoomCode`). Each of the eight characters comes
    from two random draws: a branch (0 for a digit, anything else for a letter)
    and a pick within the branch. The floating-point draws of the original are
    replaced by the integers they are truncated to, and the unbounded retry
    loop by a finite sequence of candidate draws. */
module RoomCodes {
  import opened Outcomes

  /** `tmp.length` in `createRoomCode`. */
  const CodeLength: nat := 8

  /** One character's draws: `div = floor(random * 2)` and the truncated
      `random * 10` (digits) or `random * 26` (letters). */
  datatype Draw = Draw(div: int, pick: int)

  predicate ValidDraw(d: Draw)
  {
    0 <= d.div < 2 && 0 <= d.pick < (if d.div == 0 then 10 else 26)
  }

  /** The draws for one candidate code: eight valid draws. */
  predicate ValidCandidate(draws: seq<Draw>)
  {
    |draws| == CodeLength && forall i :: 0 <= i < |draws| ==> ValidDraw(draws[i])
  }

  predicate ValidAttempts(attempts: seq<seq<Draw>>)
  {
    forall k :: 0 <= k < |attempts| ==> ValidCandidate(attempts[k])
  }

  predicate IsDigit(c: char) { '0' <= c <= '9' }

  predicate IsUpper(c: char) { 'A' <= c <= 'Z' }

  /** A join code as the generator produces them: eight characters from
      `0-9A-Z`. */
  predicate WellFormed(code: string)
  {
    |code| == CodeLength && forall i :: 0 <= i < |code| ==> IsDigit(code[i]) || IsUpper(code[i])
  }

  /** The character one draw produces. */
  function CodeChar(d: Draw): (c: char)
    requires ValidDraw(d)
    ensures d.div == 0 ==> IsDigit(c) && c as int - '0' as int == d.pick
    ensures d.div != 0 ==> IsUpper(c) && c as int - 'A' as int == d.pick
  {
    if d.div == 0 then ('0' as int + d.pick) as char else ('A' as int + d.pick) as char
  }

  /** The candidate string `new String(tmp)` built from eight draws. */
  function Candidate(draws: seq<Draw>): (code: string)
    requires ValidCandidate(draws)
    ensures WellFormed(code)
    ensures forall i :: 0 <= i < |code| ==> (IsDigit(code[i]) <==> draws[i].div == 0)
  {
    seq(CodeLength, i requires 0 <= i < CodeLength => CodeChar(draws[i]))
  }

  /** The draw that produces a given code character. */
  function DrawFor(c: char): (d: Draw)
    requires IsDigit(c) || IsUpper(c)
    ensures ValidDraw(d) && CodeChar(d) == c
  {
    if IsDigit(c) then Draw(0, c as int - '0' as int) else Draw(1, c as int - 'A' as int)
  }

  /** Every well-formed code is produced by exactly one choice of draws: the
      generator can reach the whole code space, and distinct draws give
      distinct codes. */
  lemma CandidateBijective(code: string, draws: seq<Draw>)
    requires WellFormed(code)
    requires ValidCandidate(draws)
    ensures var ds := seq(CodeLength, i requires 0 <= i < CodeLength => DrawFor(code[i]));
            ValidCandidate(ds) && Candidate(ds) == code
    ensures Candidate(draws) == code <==> draws == seq(CodeLength, i requires 0 <= i < CodeLength => DrawFor(code[i]))
  {
    var ds := seq(CodeLength, i requires 0 <= i < CodeLength => DrawFor(code[i]));
    assert ValidCandidate(ds);
    assert Candidate(ds) == code;
    if Candidate(draws) == code {
      forall i | 0 <= i < CodeLength
        ensures draws[i] == ds[i]
      {
        assert CodeChar(draws[i]) == code[i];
      }
    }
  }

  /** `checkRoomCode`: scans the codes of all rooms in repository order and
      reports whether `code` is among them. */
  method CheckRoomCode(code: string, allCodes: seq<string>) returns (taken: bool)
    ensures taken <==> code in allCodes
  {
    var i := 0;
    while i < |allCodes|
      invariant 0 <= i <= |allCodes|
      invariant forall j :: 0 <= j < i ==> allCodes[j] != code
    {
      if code == allCodes[i] {
        return true;
      }
      i := i + 1;
    }
    return false;
  }

  /** The code `createRoomCode` settles on: the first candidate not already
      taken, or `None` when every supplied candidate collides (the original
      would keep drawing). */
  function GenerateCode(existing: set<string>, attempts: seq<seq<Draw>>): (r: Option<string>)
    requires ValidAttempts(attempts)
    ensures r.Some? ==> WellFormed(r.value) && r.value !in existing
    ensures r.Some? ==> exists k :: 0 <= k < |attempts| && r.value == Candidate(attempts[k])
                          && forall j :: 0 <= j < k ==> Candidate(attempts[j]) in existing
    ensures r.None? <==> forall k :: 0 <= k < |attempts| ==> Candidate(attempts[k]) in existing
  {
    if |attempts| == 0 then None
    else
      var c := Candidate(attempts[0]);
      if c in existing then
        var rest := GenerateCode(existing, attempts[1..]);
        assert forall k :: 1 <= k < |attempts| ==> attempts[1..][k - 1] == attempts[k];
        assert rest.Some? ==> exists k :: 1 <= k < |attempts| && rest.value == Candidate(attempts[k])
                                && forall j :: 0 <= j < k ==> Candidate(attempts[j]) in existing by {
          if rest.Some? {
            var k :| 0 <= k < |attempts[1..]| && rest.value == Candidate(attempts[1..][k])
                     && forall j :: 0 <= j < k ==> Candidate(attempts[1..][j]) in existing;
            assert forall j :: 1 <= j < k + 1 ==> Candidate(attempts[j]) in existing by {
              forall j | 1 <= j < k + 1 ensures Candidate(attempts[j]) in existing {
                assert attempts[j] == attempts[1..][j - 1];
              }
            }
          }
        }
        rest
      else Some(c)
  }

  /** `createRoomCode`: draws candidates in turn until `checkRoomCode` reports
      one free. */
  method CreateRoomCode(allCodes: seq<string>, attempts: seq<seq<Draw>>) returns (r: Option<string>)
    requires ValidAttempts(attempts)
    ensures r == GenerateCode((set c | c in allCodes), attempts)
    ensures r.Some? ==> WellFormed(r.value) && r.value !in allCodes
  {
    var existing := set c | c in allCodes;
    var k := 0;
    while k < |attempts|
      invariant 0 <= k <= |attempts|
      invariant GenerateCode(existing, attempts) == GenerateCode(existing, attempts[k..])
    {
      var candidate := Candidate(attempts[k]);
      var taken := CheckRoomCode(candidate, allCodes);
      assert attempts[k..][1..] == attempts[k + 1..];
      if !taken {
        return Some(candidate);
      }
      k := k + 1;
    }
    return None;
  }
}
