/** The prescription check of q9.py: a prescription and a stock are strings, one
    character per unit of a medicine, and the prescription is feasible when the stock
    holds at least as many units of every medicine as the prescription asks for. */
module Prescription {

  /** Counter(s)[c]: how many times c occurs in s, 0 for a character that does not
      occur. */
  function Count(s: string, c: char): nat
  {
    if s == [] then 0
    else Count(s[..|s| - 1], c) + (if s[|s| - 1] == c then 1 else 0)
  }

  /** The keys of Counter(s): each character of s once, in order of first occurrence. */
  function Keys(s: string): (keys: seq<char>)
    ensures forall c :: c in keys <==> c in s
    ensures forall i, j :: 0 <= i < j < |keys| ==> keys[i] != keys[j]
  {
    if s == [] then []
    else
      var prior := Keys(s[..|s| - 1]);
      var c := s[|s| - 1];
      assert forall d :: d in s <==> d in s[..|s| - 1] || d == c;
      if c in prior then prior else prior + [c]
  }

  /** verifica_viabilidade_prescricao: no medicine is asked for more often than the
      stock holds it. */
  predicate Feasible(prescription: string, stock: string)
  {
    forall c :: Count(prescription, c) <= Count(stock, c)
  }

  // ---------------------------------------------------------------------------
  // Counting
  // ---------------------------------------------------------------------------

  /** Counter agrees with the multiset of the string's characters. */
  lemma {:induction false} CountIsMultiplicity(s: string, c: char)
    ensures Count(s, c) == multiset(s)[c]
    decreases |s|
  {
    if s != [] {
      var init := s[..|s| - 1];
      CountIsMultiplicity(init, c);
      assert s == init + [s[|s| - 1]];
    }
  }

  /** A character that does not occur is counted 0. */
  lemma CountAbsent(s: string, c: char)
    requires c !in s
    ensures Count(s, c) == 0
  {
    CountIsMultiplicity(s, c);
  }

  /** Counting over a concatenation adds the counts. */
  lemma {:induction false} CountAppend(s: string, t: string, c: char)
    ensures Count(s + t, c) == Count(s, c) + Count(t, c)
    decreases |t|
  {
    if t == [] {
      assert s + t == s;
    } else {
      var init := t[..|t| - 1];
      assert (s + t)[..|s + t| - 1] == s + init;
      CountAppend(s, init, c);
    }
  }

  // ---------------------------------------------------------------------------
  // The check
  // ---------------------------------------------------------------------------

  /** The loop over the prescription's Counter keys, returning False at the first
      medicine whose count exceeds the stock's and True when none does. */
  method CheckPrescription(prescription: string, stock: string) returns (ok: bool)
    ensures ok <==> Feasible(prescription, stock)
  {
    var keys := Keys(prescription);
    for i := 0 to |keys|
      invariant forall k :: 0 <= k < i ==> Count(prescription, keys[k]) <= Count(stock, keys[k])
    {
      if Count(prescription, keys[i]) > Count(stock, keys[i]) {
        return false;
      }
    }
    forall c
      ensures Count(prescription, c) <= Count(stock, c)
    {
      if c in keys {
        var k :| 0 <= k < |keys| && keys[k] == c;
      } else {
        CountAbsent(prescription, c);
      }
    }
    return true;
  }

  // ---------------------------------------------------------------------------
  // Properties
  // ---------------------------------------------------------------------------

  /** Feasibility is inclusion of the prescription's multiset of medicines in the
      stock's. */
  lemma FeasibleIsInclusion(prescription: string, stock: string)
    ensures Feasible(prescription, stock) <==> multiset(prescription) <= multiset(stock)
  {
    forall c
      ensures Count(prescription, c) == multiset(prescription)[c]
      ensures Count(stock, c) == multiset(stock)[c]
    {
      CountIsMultiplicity(prescription, c);
      CountIsMultiplicity(stock, c);
    }
  }

  /** An empty prescription is always feasible. */
  lemma EmptyPrescriptionFeasible(stock: string)
    ensures Feasible([], stock)
  {
  }

  /** A medicine that the stock lacks altogether makes the prescription infeasible. */
  lemma MissingMedicineInfeasible(prescription: string, stock: string, c: char)
    requires c in prescription && c !in stock
    ensures !Feasible(prescription, stock)
  {
    CountAbsent(stock, c);
    CountIsMultiplicity(prescription, c);
  }

  /** Only how many units of each medicine there are matters, not their order. */
  lemma PermutationInvariant(p: string, p': string, s: string, s': string)
    requires multiset(p) == multiset(p') && multiset(s) == multiset(s')
    ensures Feasible(p, s) <==> Feasible(p', s')
  {
    FeasibleIsInclusion(p, s);
    FeasibleIsInclusion(p', s');
  }

  /** Every prescription can be met from a stock equal to it. */
  lemma SelfFeasible(s: string)
    ensures Feasible(s, s)
  {
  }

  /** Adding units to the stock never makes a feasible prescription infeasible. */
  lemma MoreStockStaysFeasible(prescription: string, stock: string, extra: string)
    requires Feasible(prescription, stock)
    ensures Feasible(prescription, stock + extra)
  {
    forall c
      ensures Count(prescription, c) <= Count(stock + extra, c)
    {
      CountAppend(stock, extra, c);
    }
  }
}
