/** The table of binary operators the generator fills on first use, entry by entry, a later entry replacing an earlier one. */
module ScriptOps {
  import opened ScriptMachine

  datatype Entry = Entry(name: string, op: Op2)

  /** The entries in the order the source makes them. */
  const ENTRIES: seq<Entry> := [
    Entry("+", Add), Entry("-", Sub), Entry("*", Mul), Entry("/", Div), Entry("%", Mod), Entry("^", Pow),
    Entry(".*", DotMul), Entry("./", DotDiv),
    Entry(">", Gt), Entry("<", Lt), Entry(">=", Ge), Entry("<=", Le), Entry("==", Eq), Entry("!=", Ne),
    Entry("&&", And), Entry("||", Or), Entry("^^", Xor),
    Entry("&", BitAnd), Entry("|", BitOr), Entry("^", BitXor),
    Entry("..", Cat)]

  /** What the last entry of that name says. */
  function Meaning(es: seq<Entry>, name: string): Option<Op2> {
    if es == [] then None
    else if es[|es| - 1].name == name then Some(es[|es| - 1].op)
    else Meaning(es[..|es| - 1], name)
  }


  lemma {:induction false} MeaningIs(es: seq<Entry>, i: nat)
    requires i < |es| && forall j :: i < j < |es| ==> es[j].name != es[i].name
    ensures Meaning(es, es[i].name) == Some(es[i].op)
    decreases |es|
  {
    if i < |es| - 1 {
      assert es[..|es| - 1][i] == es[i];
      MeaningIs(es[..|es| - 1], i);
    }
  }

  lemma {:induction false} MeaningFrom(es: seq<Entry>, name: string) returns (i: nat)
    requires Meaning(es, name).Some?
    ensures i < |es| && es[i] == Entry(name, Meaning(es, name).value) && forall j :: i < j < |es| ==> es[j].name != name
    decreases |es|
  {
    if es[|es| - 1].name == name {
      i := |es| - 1;
    } else {
      i := MeaningFrom(es[..|es| - 1], name);
    }
  }

  lemma NamesDiffer(i: nat, j: nat)
    requires i < j < |ENTRIES|
    ensures ENTRIES[i].name == ENTRIES[j].name <==> i == 5 && j == 19
  {
    var a, b := ENTRIES[i].name, ENTRIES[j].name;
    assert |a| == |b| && a[0] == b[0] && (|a| == 2 ==> a[1] == b[1]) ==> a == b;
  }

  lemma NoPow(name: string)
    ensures Meaning(ENTRIES, name) != Some(Pow)
  {
    var caret := ENTRIES[19];
    assert caret.name == "^" && forall i :: 0 <= i < |ENTRIES| && ENTRIES[i].op == Pow ==> i == 5 && ENTRIES[i].name == "^";
    if Meaning(ENTRIES, name).Some? {
      var i := MeaningFrom(ENTRIES, name);
    }
  }

  /** Every operator name means the operator entered for it, except "^": entered for the power first and for
      bitwise exclusive or later, it means the latter, and no name means the power. */
  lemma CaretIsXor()
    ensures Meaning(ENTRIES, "^") == Some(BitXor)
    ensures forall name :: Meaning(ENTRIES, name) != Some(Pow)
    ensures forall i :: 0 <= i < |ENTRIES| ==> (Meaning(ENTRIES, ENTRIES[i].name) == Some(ENTRIES[i].op) <==> ENTRIES[i].op != Pow)
  {
    forall i: nat | i < |ENTRIES| && i != 5 ensures Meaning(ENTRIES, ENTRIES[i].name) == Some(ENTRIES[i].op) {
      forall j | i < j < |ENTRIES| ensures ENTRIES[j].name != ENTRIES[i].name { NamesDiffer(i, j); }
      MeaningIs(ENTRIES, i);
    }
    assert ENTRIES[19] == Entry("^", BitXor) && ENTRIES[5] == Entry("^", Pow);
    forall name ensures Meaning(ENTRIES, name) != Some(Pow) { NoPow(name); }
  }

  /** How each operator is written; there is no way to write the power. */
  function Spelling(op: Op2): Option<string> {
    match op
    case Add => Some("+")
    case Sub => Some("-")
    case Mul => Some("*")
    case Div => Some("/")
    case Mod => Some("%")
    case Gt => Some(">")
    case Lt => Some("<")
    case Ge => Some(">=")
    case Le => Some("<=")
    case Eq => Some("==")
    case Ne => Some("!=")
    case And => Some("&&")
    case Or => Some("||")
    case Xor => Some("^^")
    case BitAnd => Some("&")
    case BitOr => Some("|")
    case BitXor => Some("^")
    case Cat => Some("..")
    case Pow => None
    case DotMul => Some(".*")
    case DotDiv => Some("./")
  }

  /** Where the source enters it last. */
  function EntryOf(op: Op2): nat {
    match op
    case Add => 0
    case Sub => 1
    case Mul => 2
    case Div => 3
    case Mod => 4
    case Gt => 8
    case Lt => 9
    case Ge => 10
    case Le => 11
    case Eq => 12
    case Ne => 13
    case And => 14
    case Or => 15
    case Xor => 16
    case BitAnd => 17
    case BitOr => 18
    case BitXor => 19
    case Cat => 20
    case Pow => 5
    case DotMul => 6
    case DotDiv => 7
  }

  /** A name means an operator if and only if it is how that operator is written. */
  lemma MeansWhatIsWritten(name: string, op: Op2)
    ensures Meaning(ENTRIES, name) == Some(op) <==> Spelling(op) == Some(name)
  {
    NoPow(name);
    CaretIsXor();
    EntriesSpelled(op);
    if Meaning(ENTRIES, name) == Some(op) {
      var i := MeaningFrom(ENTRIES, name);
      EntriesSpelled(ENTRIES[i].op);
    }
  }

  lemma EntriesSpelled(op: Op2)
    ensures EntryOf(op) < |ENTRIES| && ENTRIES[EntryOf(op)].op == op
    ensures op != Pow ==> Spelling(op) == Some(ENTRIES[EntryOf(op)].name)
    ensures forall i :: 0 <= i < |ENTRIES| && ENTRIES[i].op == op ==> i == EntryOf(op)
  {
  }

  /** mp_op2. A name that was looked up and not found stays in the table without an operator. */
  class OpTable {
    var mp_op2: map<string, Option<Op2>>

    ghost predicate Valid()
      reads this
    {
      mp_op2 == map[] || forall name :: Found(mp_op2, name) == Meaning(ENTRIES, name)
    }

    constructor ()
      ensures Valid()
    {
      mp_op2 := map[];
    }

    /** The operator a name stands for; the generator reports an error for None. */
    method Find(name: string) returns (op: Option<Op2>)
      requires Valid()
      modifies this
      ensures Valid() && op == Meaning(ENTRIES, name)
      ensures forall o: Op2 :: op == Some(o) <==> Spelling(o) == Some(name)
    {
      forall o: Op2 ensures Meaning(ENTRIES, name) == Some(o) <==> Spelling(o) == Some(name) { MeansWhatIsWritten(name, o); }
      if |mp_op2| == 0 {
        Fill();
      }
      if name !in mp_op2 {
        mp_op2 := mp_op2[name := None];
      }
      op := mp_op2[name];
      assert op == Found(mp_op2, name);
    }

    method Fill()
      requires mp_op2 == map[]
      modifies this
      ensures forall name :: Found(mp_op2, name) == Meaning(ENTRIES, name)
    {
      for i := 0 to |ENTRIES|
        invariant forall name :: Found(mp_op2, name) == Meaning(ENTRIES[..i], name)
      {
        assert ENTRIES[..i + 1][..i] == ENTRIES[..i];
        mp_op2 := mp_op2[ENTRIES[i].name := Some(ENTRIES[i].op)];
      }
      assert ENTRIES[..|ENTRIES|] == ENTRIES;
    }
  }

  function Found(t: map<string, Option<Op2>>, name: string): Option<Op2> {
    if name in t then t[name] else None
  }
}
