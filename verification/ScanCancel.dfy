/** What a Next scan leaves behind when it is cancelled, and when that loses an earlier result. */
module ScanCancel {
  import opened Words
  import opened Memory
  import opened Values
  import opened Refine
  import opened Scanner
  import opened ScanRuns

  // --- Cancelled Next scans ---

  /** A list in address order, and reads that let the Next scan judge every candidate that is there. */
  ghost predicate Exactly<T>(mem: Bytes, got: ReadCounts, rules: Rules<T>, cs: seq<T>, chunk: nat) {
    chunk > 0 && rules.w > 0 && ValidReads(mem, got) && MaximalReads(mem, got) && SortedAt(rules.at, cs)
  }

  /**
   * What a numeric Next scan leaves when it is cancelled after so many blocks: every address in
   * place, new previous values only for candidates it kept, and the list as it was exactly when
   * every readable candidate of those blocks is dropped or unchanged.
   */
  lemma CancelledNumeric(mem: Bytes, got: ReadCounts, t: DataType, filter: Filter, target: Option<Word>,
                         cs: seq<Candidate>, chunk: nat, blocks: nat)
    requires Exactly(mem, got, NumericRules(t, filter, target), cs, chunk)
    ensures var rules := NumericRules(t, filter, target);
            var judged := |JudgedAfter(got, rules, cs, chunk, blocks)|;
            var left := Stored(mem, rules, cs, JudgedAfter(got, rules, cs, chunk, blocks));
            && (forall i :: 0 <= i < |cs| ==> left[i].addr == cs[i].addr)
            && (forall i :: 0 <= i < |cs| && left[i] != cs[i] ==>
                  i < judged && Available(mem, cs[i].addr, TypeSize(t)) && left[i].prev == ValueAt(mem, cs[i].addr, t))
            && (left == cs <==> forall i :: 0 <= i < judged && Available(mem, cs[i].addr, TypeSize(t)) ==>
                                  Untouched(mem, t, filter, target, cs[i]))
  {
    var rules := NumericRules(t, filter, target);
    var flags := JudgedAfter(got, rules, cs, chunk, blocks);
    JudgedReadable(mem, got, rules, cs, chunk, blocks);
    NumericReadable(mem, t, filter, target, cs);
    hide *;
    forall i | 0 <= i < |flags|
      ensures flags[i] == Available(mem, cs[i].addr, TypeSize(t))
    {
      assert flags[i] == Readable(mem, rules, cs)[i];
    }
    LeftByFlags(mem, t, filter, target, cs, flags);
  }

  lemma NumericReadable(mem: Bytes, t: DataType, filter: Filter, target: Option<Word>, cs: seq<Candidate>)
    ensures forall i :: 0 <= i < |cs| ==>
              Readable(mem, NumericRules(t, filter, target), cs)[i] == Available(mem, cs[i].addr, TypeSize(t))
  {
    hide Available;
  }

  /**
   * The promise of src/scanner.h:121-123, decided before the call: earlier results survive a cancel
   * at any moment exactly when every readable candidate is dropped or unchanged.
   */
  lemma NumericSurvivesAnyCancel(mem: Bytes, got: ReadCounts, t: DataType, filter: Filter, target: Option<Word>,
                                 cs: seq<Candidate>, chunk: nat)
    requires Exactly(mem, got, NumericRules(t, filter, target), cs, chunk)
    ensures var rules := NumericRules(t, filter, target);
            (forall blocks: nat :: Stored(mem, rules, cs, JudgedAfter(got, rules, cs, chunk, blocks)) == cs) <==>
              forall c :: c in cs && Available(mem, c.addr, TypeSize(t)) ==> Untouched(mem, t, filter, target, c)
  {
    var rules := NumericRules(t, filter, target);
    IntactAlways(mem, got, rules, cs, chunk);
    JudgedAdvances(got, rules, cs, chunk, |cs|);
    CancelledNumeric(mem, got, t, filter, target, cs, chunk, |cs|);
    hide Stored, JudgedAfter, Untouched, Available, Exactly, NumericRules;
  }

  /** What cancelling leaves of the list, by the flags of the candidates judged. */
  lemma LeftByFlags(mem: Bytes, t: DataType, filter: Filter, target: Option<Word>, cs: seq<Candidate>, flags: seq<bool>)
    requires |flags| <= |cs|
    ensures var rules := NumericRules(t, filter, target);
            var left := Stored(mem, rules, cs, flags);
            && (forall i :: 0 <= i < |cs| ==> left[i].addr == cs[i].addr)
            && (forall i :: 0 <= i < |cs| && left[i] != cs[i] ==>
                  i < |flags| && flags[i] && left[i].prev == ValueAt(mem, cs[i].addr, t))
            && (left == cs <==> forall i :: 0 <= i < |flags| && flags[i] ==> Untouched(mem, t, filter, target, cs[i]))
  {
    var left := Stored(mem, NumericRules(t, filter, target), cs, flags);
    NumericLeft(mem, t, filter, target, cs, flags);
    hide LeftBehind, Untouched;
    hide Stored, Keeps, ValueAt, NumericRules, TypeSize;
    LeftIntact(mem, t, filter, target, cs, flags, left);
  }

  lemma LeftIntact(mem: Bytes, t: DataType, filter: Filter, target: Option<Word>, cs: seq<Candidate>, flags: seq<bool>,
                   left: seq<Candidate>)
    requires |flags| <= |cs| == |left|
    requires forall i :: 0 <= i < |cs| ==> left[i] == LeftBehind(mem, t, filter, target, cs[i], i < |flags| && flags[i])
    ensures forall i :: 0 <= i < |cs| ==> left[i].addr == cs[i].addr
    ensures forall i :: 0 <= i < |cs| && left[i] != cs[i] ==>
              i < |flags| && flags[i] && left[i].prev == ValueAt(mem, cs[i].addr, t)
    ensures left == cs <==> forall i :: 0 <= i < |flags| && flags[i] ==> Untouched(mem, t, filter, target, cs[i])
  {
    forall i | 0 <= i < |cs|
      ensures left[i].addr == cs[i].addr
      ensures left[i] == cs[i] <==> (i < |flags| && flags[i] ==> Untouched(mem, t, filter, target, cs[i]))
      ensures left[i] != cs[i] ==> i < |flags| && flags[i] && left[i].prev == ValueAt(mem, cs[i].addr, t)
    {
      LeftOne(mem, t, filter, target, cs[i], i < |flags| && flags[i]);
    }
    hide LeftBehind, Untouched, Keeps, ValueAt;
  }

  lemma LeftOne(mem: Bytes, t: DataType, filter: Filter, target: Option<Word>, c: Candidate, judged: bool)
    ensures var left := LeftBehind(mem, t, filter, target, c, judged);
            && left.addr == c.addr && (left == c <==> (judged ==> Untouched(mem, t, filter, target, c)))
            && (left != c ==> judged && left.prev == ValueAt(mem, c.addr, t))
  {
    hide Keeps, ValueAt;
  }

  lemma NumericLeft(mem: Bytes, t: DataType, filter: Filter, target: Option<Word>, cs: seq<Candidate>, flags: seq<bool>)
    requires |flags| <= |cs|
    ensures forall i :: 0 <= i < |cs| ==>
              Stored(mem, NumericRules(t, filter, target), cs, flags)[i] ==
              LeftBehind(mem, t, filter, target, cs[i], i < |flags| && flags[i])
  {
    hide *;
    forall i | 0 <= i < |cs|
      ensures Stored(mem, NumericRules(t, filter, target), cs, flags)[i] ==
              LeftBehind(mem, t, filter, target, cs[i], i < |flags| && flags[i])
    {
      NumericStoredAt(mem, t, filter, target, cs, flags, i);
    }
  }

  function LeftBehind(mem: Bytes, t: DataType, filter: Filter, target: Option<Word>, c: Candidate, judged: bool)
    : Candidate
  {
    if judged && Keeps(filter, ValueAt(mem, c.addr, t), c.prev, target, t)
      then Candidate(c.addr, ValueAt(mem, c.addr, t)) else c
  }

  lemma NumericStoredAt(mem: Bytes, t: DataType, filter: Filter, target: Option<Word>, cs: seq<Candidate>,
                        flags: seq<bool>, i: nat)
    requires |flags| <= |cs| && i < |cs|
    ensures Stored(mem, NumericRules(t, filter, target), cs, flags)[i] ==
            LeftBehind(mem, t, filter, target, cs[i], i < |flags| && flags[i])
  {
    NumericVerdictSpec(mem, t, filter, target, cs[i], Candidate(cs[i].addr, ValueAt(mem, cs[i].addr, t)));
  }

  /** Judging this candidate in place changes nothing: it is dropped, or its value is the one stored. */
  predicate Untouched(mem: Bytes, t: DataType, filter: Filter, target: Option<Word>, c: Candidate) {
    Keeps(filter, ValueAt(mem, c.addr, t), c.prev, target, t) ==> ValueAt(mem, c.addr, t) == c.prev
  }

  /**
   * From the arguments alone: on an integer type a cancelled UNCHANGED scan loses no previous value,
   * whatever the memory holds, exactly when that value fits the type.
   */
  lemma UnchangedLosesNothing(t: DataType, target: Option<Word>, a: nat, prev: Word)
    requires IsSigned(t) || IsUnsigned(t)
    ensures (forall mem: Bytes :: Untouched(mem, t, Unchanged, target, Candidate(a, prev))) <==>
        prev < Pow256(TypeSize(t))
  {
    var w := TypeSize(t);
    LowBitsFit(prev, t);
    if prev < Pow256(w) {
      forall mem: Bytes
        ensures Untouched(mem, t, Unchanged, target, Candidate(a, prev))
      {
        LowBitsFit(ValueAt(mem, a, t), t);
        SameLowBits(ValueAt(mem, a, t), prev, t);
      }
    } else {
      var bs := EveryNumberHasBytes(LowBits(prev, w), w);
      var mem := Laid(a, bs);
      assert BytesAt(mem, a, w) == bs;
      LowBitsFit(ValueAt(mem, a, t), t);
      SameLowBits(ValueAt(mem, a, t), prev, t);
      assert !Untouched(mem, t, Unchanged, target, Candidate(a, prev));
    }
  }

  /** Without a given value the filters that need one drop every candidate and so lose nothing either. */
  lemma NoValueLosesNothing(mem: Bytes, t: DataType, filter: Filter, c: Candidate)
    requires filter !in {Changed, Unchanged, Increased, Decreased}
    ensures Untouched(mem, t, filter, None, c)
  {
  }

  /** The filter and the stored values alone say that a cancel loses nothing. */
  predicate SafeArguments(t: DataType, filter: Filter, target: Option<Word>, cs: seq<Candidate>) {
    || (target.None? && filter !in {Changed, Unchanged, Increased, Decreased})
    || ((IsSigned(t) || IsUnsigned(t)) && filter == Unchanged && forall c :: c in cs ==> c.prev < Pow256(TypeSize(t)))
  }

  /** With such arguments earlier results survive a cancel at any moment, over any memory. */
  lemma SafeArgumentsSurvive(mem: Bytes, got: ReadCounts, t: DataType, filter: Filter, target: Option<Word>,
                             cs: seq<Candidate>, chunk: nat, blocks: nat)
    requires Exactly(mem, got, NumericRules(t, filter, target), cs, chunk) && SafeArguments(t, filter, target, cs)
    ensures var rules := NumericRules(t, filter, target);
            Stored(mem, rules, cs, JudgedAfter(got, rules, cs, chunk, blocks)) == cs
  {
    forall c | c in cs
      ensures Untouched(mem, t, filter, target, c)
    {
      if target.None? && filter != Unchanged {
        NoValueLosesNothing(mem, t, filter, c);
      } else {
        UnchangedLosesNothing(t, target, c.addr, c.prev);
        assert c == Candidate(c.addr, c.prev);
      }
    }
    NumericSurvivesAnyCancel(mem, got, t, filter, target, cs, chunk);
    hide *;
  }

  lemma LowBitsFit(v: Word, t: DataType)
    ensures LowBits(v, TypeSize(t)) < Pow256(TypeSize(t))
    ensures v < Pow256(TypeSize(t)) ==> LowBits(v, TypeSize(t)) == v
  {
    Pow256OfEight();
    assert Pow256(1) == 0x100 && Pow256(2) == 0x1_0000;
    assert Pow256(3) == 0x100_0000 && Pow256(4) == 0x1_0000_0000;
  }

  lemma SameLowBits(x: Word, y: Word, t: DataType)
    requires IsSigned(t) || IsUnsigned(t)
    ensures Equal(x, y, t) <==> LowBits(x, TypeSize(t)) == LowBits(y, TypeSize(t))
  {
  }

  lemma OneByte(mem: Bytes, a: nat)
    requires a in mem
    ensures ValueAt(mem, a, U8) == mem[a]
  {
    var bs := BytesAt(mem, a, 1);
    assert bs == [mem[a]] && bs[1..] == [];
  }

  // --- Cancelled dynamic scans ---

  /** Judging this candidate in place loses nothing: it is dropped, or had no captured bytes. */
  predicate Spared(mem: Bytes, filter: Filter, spec: DynSpec, c: DynCandidate) {
    KeepsDynamic(filter, spec, c.prevWild, BytesAt(mem, c.addr, |spec.pattern.bytes|)) ==> c.prevWild == []
  }

  /**
   * What a dynamic Next scan leaves when it is cancelled after so many blocks: every address in
   * place, and the captures of exactly the readable kept candidates of those blocks emptied.
   */
  lemma CancelledDynamic(mem: Bytes, got: ReadCounts, filter: Filter, spec: DynSpec, cs: seq<DynCandidate>, chunk: nat,
                         blocks: nat)
    requires Exactly(mem, got, DynamicRules(filter, spec), cs, chunk)
    ensures var rules := DynamicRules(filter, spec);
            var judged := |JudgedAfter(got, rules, cs, chunk, blocks)|;
            var left := Stored(mem, rules, cs, JudgedAfter(got, rules, cs, chunk, blocks));
            forall i :: 0 <= i < |cs| ==>
              left[i] == if i < judged && Available(mem, cs[i].addr, |spec.pattern.bytes|)
                && !Spared(mem, filter, spec, cs[i])
                         then DynCandidate(cs[i].addr, []) else cs[i]
  {
    var rules := DynamicRules(filter, spec);
    var flags := JudgedAfter(got, rules, cs, chunk, blocks);
    JudgedReadable(mem, got, rules, cs, chunk, blocks);
    DynamicReadable(mem, filter, spec, cs);
    hide *;
    forall i | 0 <= i < |cs|
      ensures Stored(mem, rules, cs, flags)[i] ==
              if i < |flags| && Available(mem, cs[i].addr, |spec.pattern.bytes|) && !Spared(mem, filter, spec, cs[i])
              then DynCandidate(cs[i].addr, []) else cs[i]
    {
      assert i < |flags| ==> flags[i] == Readable(mem, rules, cs)[i];
      DynamicStoredAt(mem, filter, spec, cs, flags, i);
    }
  }

  lemma DynamicReadable(mem: Bytes, filter: Filter, spec: DynSpec, cs: seq<DynCandidate>)
    ensures forall i :: 0 <= i < |cs| ==>
              Readable(mem, DynamicRules(filter, spec), cs)[i] == Available(mem, cs[i].addr, |spec.pattern.bytes|)
  {
    hide Available;
  }

  lemma DynamicStoredAt(mem: Bytes, filter: Filter, spec: DynSpec, cs: seq<DynCandidate>, flags: seq<bool>, i: nat)
    requires |flags| <= |cs| && i < |cs|
    ensures Stored(mem, DynamicRules(filter, spec), cs, flags)[i] ==
            if i < |flags| && flags[i] && !Spared(mem, filter, spec, cs[i]) then DynCandidate(cs[i].addr, []) else cs[i]
  {
    DynamicVerdict(mem, filter, spec, cs[i]);
    assert cs[i] == DynCandidate(cs[i].addr, cs[i].prevWild);
    hide Verdict, KeepsDynamic;
  }

  lemma DynamicVerdict(mem: Bytes, filter: Filter, spec: DynSpec, c: DynCandidate)
    ensures var rules := DynamicRules(filter, spec);
            var win := BytesAt(mem, c.addr, |spec.pattern.bytes|);
            && rules.at(c) == c.addr
            && rules.spent(DynCandidate(c.addr, WildBytes(spec, win))) == DynCandidate(c.addr, [])
            && Verdict(mem, rules, c) ==
               (if KeepsDynamic(filter, spec, c.prevWild, win) then Some(DynCandidate(c.addr, WildBytes(spec, win)))
                 else None)
  {
    hide KeepsDynamic;
  }

  /**
   * The same promise for dynamic candidates captured under a stored spec, decided before the call:
   * they survive a cancel at any moment exactly when that spec has no wildcards, or no readable
   * candidate would be kept.
   */
  lemma DynamicSurvivesAnyCancel(mem: Bytes, got: ReadCounts, filter: Filter, stored: DynSpec, spec: DynSpec,
                                 cs: seq<DynCandidate>, chunk: nat)
    requires Exactly(mem, got, DynamicRules(filter, spec), cs, chunk) && Captured(stored, cs)
    ensures var rules := DynamicRules(filter, spec);
            var w := |spec.pattern.bytes|;
            (forall blocks: nat :: Stored(mem, rules, cs, JudgedAfter(got, rules, cs, chunk, blocks)) == cs) <==>
              stored.wildPos == []
              || forall c :: c in cs && Available(mem, c.addr, w) ==>
                  !KeepsDynamic(filter, spec, c.prevWild, BytesAt(mem, c.addr, w))
  {
    var rules := DynamicRules(filter, spec);
    IntactAlways(mem, got, rules, cs, chunk);
    JudgedAdvances(got, rules, cs, chunk, |cs|);
    CancelledDynamic(mem, got, filter, spec, cs, chunk, |cs|);
    var left := Stored(mem, rules, cs, JudgedAfter(got, rules, cs, chunk, |cs|));
    hide Stored, JudgedAfter, KeepsDynamic, Available, Exactly, DynamicRules;
    if left != cs {
      var i :| 0 <= i < |cs| && left[i] != cs[i];
      assert cs[i] in cs;
    }
    forall i | left == cs && stored.wildPos != [] && 0 <= i < |cs| && Available(mem, cs[i].addr, |spec.pattern.bytes|)
      ensures !KeepsDynamic(filter, spec, cs[i].prevWild, BytesAt(mem, cs[i].addr, |spec.pattern.bytes|))
    {
      assert left[i] == cs[i] && cs[i] in cs;
    }
  }

  /** The same for a scanner whose last dynamic scan was completed: its candidates are as that scan captured them. */
  lemma CompletedSurvivesAnyCancel(s: Scanner, mem: Bytes, got: ReadCounts, filter: Filter, newSpec: Option<DynSpec>)
    requires s.dynSpec.Some? && s.Captures() && s.chunk > 0
    requires Exactly(mem, got, DynamicRules(filter, BaseSpec(s.dynSpec, newSpec)), s.dynCandidates, s.chunk)
    ensures var spec, cs := BaseSpec(s.dynSpec, newSpec), s.dynCandidates;
            var rules, w := DynamicRules(filter, spec), |spec.pattern.bytes|;
            (forall blocks: nat :: Stored(mem, rules, cs, JudgedAfter(got, rules, cs, s.chunk, blocks)) == cs) <==>
              s.dynSpec.value.wildPos == []
              || forall c :: c in cs && Available(mem, c.addr, w) ==>
                   !KeepsDynamic(filter, spec, c.prevWild, BytesAt(mem, c.addr, w))
  {
    var spec := BaseSpec(s.dynSpec, newSpec);
    hide Stored, JudgedAfter, KeepsDynamic, Available, Exactly, DynamicRules;
    DynamicSurvivesAnyCancel(mem, got, filter, s.dynSpec.value, spec, s.dynCandidates, s.chunk);
  }
}
