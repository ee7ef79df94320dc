/** Job ids: the agent's identifier, a slash and the agent's counter in decimal
    (internal/registry/record.go). */
module JobIds {

  type AgentId = string
  type JobId = string

  function Digit(d: nat): char
    requires d < 10
  {
    '0' + d as char
  }

  predicate IsDigit(c: char) {
    '0' <= c <= '9'
  }

  function Decimal(n: nat): string {
    if n < 10 then [Digit(n)] else Decimal(n / 10) + [Digit(n % 10)]
  }

  function MintId(agent: AgentId, n: nat): JobId {
    agent + "/" + Decimal(n)
  }

  /** Reads a decimal back. */
  function Value(s: string): int {
    if s == [] then 0 else 10 * Value(s[..|s| - 1]) + (s[|s| - 1] as int - '0' as int)
  }

  lemma {:induction false} DecimalReadsBack(n: nat)
    ensures Value(Decimal(n)) == n
    ensures |Decimal(n)| > 0 && forall i :: 0 <= i < |Decimal(n)| ==> IsDigit(Decimal(n)[i])
  {
    if n < 10 {
      assert Decimal(n)[..0] == [];
    } else {
      DecimalReadsBack(n / 10);
      assert Decimal(n)[..|Decimal(n)| - 1] == Decimal(n / 10);
    }
  }

  /** A numeral as it is written: digits, and no zero in front of others. */
  predicate IsNumeral(s: string) {
    && |s| > 0
    && (forall i :: 0 <= i < |s| ==> IsDigit(s[i]))
    && (|s| > 1 ==> s[0] != '0')
  }

  lemma {:induction false} DecimalIsNumeral(n: nat)
    ensures IsNumeral(Decimal(n))
    ensures 0 < n ==> Decimal(n)[0] != '0'
  {
    if 10 <= n {
      DecimalIsNumeral(n / 10);
    }
  }

  lemma {:induction false} ValueIsNat(s: string)
    requires forall i :: 0 <= i < |s| ==> IsDigit(s[i])
    ensures 0 <= Value(s)
    ensures |s| > 0 && s[0] != '0' ==> 0 < Value(s)
  {
    if s != [] {
      ValueIsNat(s[..|s| - 1]);
    }
  }

  /** There is one numeral for each number. */
  lemma {:induction false} ValueWritesBack(s: string)
    requires IsNumeral(s)
    ensures 0 <= Value(s) && Decimal(Value(s)) == s
  {
    var front, last := s[..|s| - 1], s[|s| - 1];
    ValueIsNat(s);
    ValueIsNat(front);
    if |s| == 1 {
      assert front == [] && Value(s) == last as int - '0' as int;
      assert Digit(Value(s)) == last;
      assert s == [last];
    } else {
      ValueWritesBack(front);
      var digit := last as int - '0' as int;
      assert Value(s) == 10 * Value(front) + digit;
      assert Value(s) / 10 == Value(front) && Value(s) % 10 == digit;
      assert Digit(digit) == last;
      assert s == front + [last];
    }
  }

  /** The agent's identifier, a slash, and the numeral of a count. */
  predicate IsIdOf(id: JobId, agent: AgentId, n: nat) {
    && |agent| < |id| && id[..|agent|] == agent && id[|agent|] == '/'
    && IsNumeral(id[|agent| + 1..]) && Value(id[|agent| + 1..]) == n
  }

  lemma MintedIsId(agent: AgentId, n: nat)
    ensures IsIdOf(MintId(agent, n), agent, n)
  {
    var id := MintId(agent, n);
    DecimalReadsBack(n);
    DecimalIsNumeral(n);
    assert id[|agent| + 1..] == Decimal(n);
  }

  lemma IdIsMinted(id: JobId, agent: AgentId, n: nat)
    requires IsIdOf(id, agent, n)
    ensures id == MintId(agent, n)
  {
    ValueWritesBack(id[|agent| + 1..]);
    assert id == id[..|agent|] + [id[|agent|]] + id[|agent| + 1..];
  }

  /** An agent's id for a count has exactly this form. */
  lemma MintedForm(agent: AgentId, n: nat, id: JobId)
    ensures id == MintId(agent, n) <==> IsIdOf(id, agent, n)
  {
    MintedIsId(agent, n);
    if IsIdOf(id, agent, n) {
      IdIsMinted(id, agent, n);
    }
  }

  /** No two agents, and no two counts of one agent, share an id, whatever characters an agent's
      identifier has: the last slash is where the decimal begins. */
  lemma MintInjective(a: AgentId, m: nat, b: AgentId, n: nat)
    ensures MintId(a, m) == MintId(b, n) <==> a == b && m == n
  {
    if MintId(a, m) == MintId(b, n) {
      DecimalReadsBack(m);
      DecimalReadsBack(n);
      var id := MintId(a, m);
      assert id[|a|] == '/' && id[|b|] == '/';
      assert id[|a| + 1..] == Decimal(m) && id[|b| + 1..] == Decimal(n);
      assert forall i :: |a| < i < |id| ==> id[i] == Decimal(m)[i - |a| - 1];
      assert forall i :: |b| < i < |id| ==> id[i] == Decimal(n)[i - |b| - 1];
      if |a| < |b| {
        assert false;
      } else if |b| < |a| {
        assert false;
      }
      assert a == id[..|a|] && b == id[..|b|];
    }
  }
}
