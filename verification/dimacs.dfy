/** DIMACS CNF text as `write_dimacs_cnf` and `read_dimacs_cnf` produce and
    accept it (src/cnf_to_mct_json.py). The file is a string; opening,
    reading and writing it are left to the caller. */
module Dimacs {
  import opened Results
  import opened Text
  import opened Cnf

  // ---------------------------------------------------------------------------
  // Writing

  /** The literals separated by spaces, closed by " 0". */
  function ClauseLine(c: Clause): string {
    Join(" ", IntTexts(c)) + " 0"
  }

  function HeaderLine(nvars: int, m: nat): string {
    "p cnf " + IntToString(nvars) + " " + IntToString(m)
  }

  function ClauseLines(cs: Formula): string
    decreases |cs|
  {
    if cs == [] then "" else ClauseLine(cs[0]) + "\n" + ClauseLines(cs[1..])
  }

  /** The text `write_dimacs_cnf(nvars, clauses, path)` writes to `path`. */
  function WriteDimacs(nvars: int, clauses: Formula): string {
    HeaderLine(nvars, |clauses|) + "\n" + ClauseLines(clauses)
  }

  // ---------------------------------------------------------------------------
  // Reading

  /** The tokens of `ts` other than the exact string "0". */
  function DropZeros(ts: seq<string>): (r: seq<string>)
    ensures forall k :: 0 <= k < |r| ==> r[k] in ts && r[k] != "0"
    decreases |ts|
  {
    if ts == [] then []
    else if ts[0] == "0" then DropZeros(ts[1..])
    else [ts[0]] + DropZeros(ts[1..])
  }

  /** One pass of the reading loop over the remaining lines, carrying the
      variable count and the clauses read so far. */
  function ReadLines(ls: seq<string>, nvars: int, acc: Formula): Result<(int, Formula)>
    decreases |ls|
  {
    if ls == [] then Ok((nvars, acc))
    else
      var line := ls[0];
      if StartsWith(line, "c") || Strip(line) == "" then
        ReadLines(ls[1..], nvars, acc)
      else if StartsWith(line, "p cnf") then
        var ws := Words(line);
        if |ws| < 3 then Err("list index out of range")
        else match ParseInt(ws[2])
          case None => Err(InvalidLiteral(ws[2]))
          case Some(n) => ReadLines(ls[1..], n, acc)
      else
        // `line.strip().split()` gives the same tokens as `line.split()`
        var lits :- ParseInts(DropZeros(Words(line)));
        ReadLines(ls[1..], nvars, if lits != [] then acc + [lits] else acc)
  }

  /** `read_dimacs_cnf` on the file's text: the variable count of the last
      "p cnf" line (0 when there is none) and every non-empty clause line. */
  function ReadDimacs(text: string): Result<(int, Formula)> {
    ReadLines(Lines(text), 0, [])
  }

  // ---------------------------------------------------------------------------
  // Round trip

  /** The clauses that are not empty, in order. */
  function NonEmpty(cs: Formula): (r: Formula)
    ensures forall c :: c in r ==> c in cs && c != []
    decreases |cs|
  {
    if cs == [] then [] else (if cs[0] == [] then [] else [cs[0]]) + NonEmpty(cs[1..])
  }

  /** The first clause line is split off the front of the clause lines. */
  lemma ClauseLinesCons(cs: Formula)
    requires cs != []
    ensures Lines(ClauseLines(cs)) == [ClauseLine(cs[0])] + Lines(ClauseLines(cs[1..]))
  {
    JoinNoNewline(IntTexts(cs[0]));
    LinesCons(ClauseLine(cs[0]), ClauseLines(cs[1..]));
  }

  /** How the reader sees a clause line: never a comment, blank or header
      line, and its literals are the clause's literals. */
  lemma ReadClauseLine(c: Clause)
    requires 0 !in c
    ensures !StartsWith(ClauseLine(c), "c") && Strip(ClauseLine(c)) != ""
    ensures !StartsWith(ClauseLine(c), "p cnf")
    ensures ParseInts(DropZeros(Words(ClauseLine(c)))) == Ok(c)
  {
    ClauseLineNotSpecial(c);
    ClauseLineWords(c);
    DropTexts(c);
    ParseIntTexts(c);
  }

  lemma ClauseLineNotSpecial(c: Clause)
    ensures !StartsWith(ClauseLine(c), "c") && !StartsWith(ClauseLine(c), "p cnf")
  {
    var line := ClauseLine(c);
    ClauseLineFirst(c);
    assert line[..1][0] == line[0];
    if |line| >= 5 {
      assert line[..5][0] == line[0];
    }
  }

  /** A clause line starts with a space (the empty clause), a minus sign or
      a digit. */
  lemma ClauseLineFirst(c: Clause)
    ensures |ClauseLine(c)| >= 2
    ensures ClauseLine(c)[0] == ' ' || ClauseLine(c)[0] == '-' || IsDigit(ClauseLine(c)[0])
  {
    if c != [] {
      var t := IntToString(c[0]);
      assert ClauseLine(c)[0] == t[0];
      if c[0] >= 0 {
        assert IsDigit(NatToString(c[0])[0]);
      }
    }
  }

  /** The words of a clause line are the literal texts and the closing
      "0", and stripping it leaves something. */
  lemma ClauseLineWords(c: Clause)
    ensures Words(ClauseLine(c)) == IntTexts(c) + ["0"]
    ensures Strip(ClauseLine(c)) != ""
  {
    var ts := IntTexts(c);
    var line := ClauseLine(c);
    if c == [] {
      assert line == " 0";
      assert StripLeft(line) == "0" by { assert line[1..] == "0"; }
      WordsOfWord("0");
      assert ts + ["0"] == ["0"];
    } else {
      assert line[0] == IntToString(c[0])[0];
      var ws := ts + ["0"];
      assert forall k :: 0 <= k < |ws| ==> ws[k] != [] && NoSpace(ws[k]);
      WordsOfJoin(ws);
      JoinSnoc(" ", ts, "0");
      assert line == Join(" ", ws);
      StripTrimmed(line);
    }
  }

  /** Dropping the closing "0" from a clause's literal texts. */
  lemma DropTexts(c: Clause)
    requires 0 !in c
    ensures DropZeros(IntTexts(c) + ["0"]) == IntTexts(c)
  {
    var ts := IntTexts(c);
    forall k | 0 <= k < |ts| ensures ts[k] != "0" {
      assert c[k] in c;
      IntToStringZero(c[k]);
    }
    DropClosingZero(ts);
  }

  lemma {:induction false} DropClosingZero(ts: seq<string>)
    requires forall k :: 0 <= k < |ts| ==> ts[k] != "0"
    ensures DropZeros(ts + ["0"]) == ts
    decreases |ts|
  {
    if ts == [] {
      assert ts + ["0"] == ["0"];
    } else {
      assert (ts + ["0"])[1..] == ts[1..] + ["0"];
      DropClosingZero(ts[1..]);
      assert [ts[0]] + ts[1..] == ts;
    }
  }

  /** Reading the clause lines after any prefix of already-read clauses. */
  lemma {:induction false} ReadClauseLines(cs: Formula, nvars: int, acc: Formula)
    requires NoZero(cs)
    ensures ReadLines(Lines(ClauseLines(cs)), nvars, acc) == Ok((nvars, acc + NonEmpty(cs)))
    decreases |cs|
  {
    if cs != [] {
      assert cs[0] in cs;
      ReadClauseLine(cs[0]);
      ClauseLinesCons(cs);
      var acc' := if cs[0] != [] then acc + [cs[0]] else acc;
      ReadClauseLines(cs[1..], nvars, acc');
      ReadLinesClauseStep(ClauseLine(cs[0]), Lines(ClauseLines(cs[1..])), nvars, acc, cs[0]);
      NonEmptyCons(acc, cs);
    } else {
      assert acc + NonEmpty(cs) == acc;
    }
  }

  lemma NonEmptyCons(acc: Formula, cs: Formula)
    requires cs != []
    ensures (if cs[0] != [] then acc + [cs[0]] else acc) + NonEmpty(cs[1..]) == acc + NonEmpty(cs)
  {
  }

  /** One step of the reading loop on a clause line. */
  lemma ReadLinesClauseStep(l: string, rest: seq<string>, nvars: int, acc: Formula, c: Clause)
    requires !StartsWith(l, "c") && Strip(l) != "" && !StartsWith(l, "p cnf")
    requires ParseInts(DropZeros(Words(l))) == Ok(c)
    ensures ReadLines([l] + rest, nvars, acc) == ReadLines(rest, nvars, if c != [] then acc + [c] else acc)
  {
    assert ([l] + rest)[1..] == rest;
  }

  /** One step of the reading loop on a header line. */
  lemma ReadLinesHeaderStep(ls: seq<string>, nvars: int, acc: Formula, n: int)
    requires ls != [] && !StartsWith(ls[0], "c") && Strip(ls[0]) != ""
    requires StartsWith(ls[0], "p cnf")
    requires |Words(ls[0])| >= 3 && ParseInt(Words(ls[0])[2]) == Some(n)
    ensures ReadLines(ls, nvars, acc) == ReadLines(ls[1..], n, acc)
  {
  }

  lemma WordsOfFour(a: string, b: string, c: string, d: string)
    requires a != [] && NoSpace(a) && b != [] && NoSpace(b)
    requires c != [] && NoSpace(c) && d != [] && NoSpace(d)
    ensures Words(a + " " + b + " " + c + " " + d) == [a, b, c, d]
  {
    SpacedFour(a, b, c, d);
    WordsOfWordSpace(a, b + " " + (c + " " + d));
    WordsOfWordSpace(b, c + " " + d);
    WordsOfWordSpace(c, d);
    WordsOfWord(d);
  }

  lemma SpacedFour(a: string, b: string, c: string, d: string)
    ensures a + " " + b + " " + c + " " + d == a + " " + (b + " " + (c + " " + d))
  {
  }

  lemma HeaderSpaced(nt: string, mt: string)
    ensures "p cnf " + nt + " " + mt == "p" + " " + "cnf" + " " + nt + " " + mt
  {
    assert "p cnf " == "p" + " " + "cnf" + " ";
  }

  lemma HeaderWords(nvars: int, m: nat)
    ensures Words(HeaderLine(nvars, m)) == ["p", "cnf", IntToString(nvars), IntToString(m)]
  {
    HeaderSpaced(IntToString(nvars), IntToString(m));
    assert NoSpace("p") && NoSpace("cnf");
    WordsOfFour("p", "cnf", IntToString(nvars), IntToString(m));
  }

  /** How the reader sees the header line: the "p cnf" line whose third
      word is the variable count. */
  lemma ReadHeaderLine(nvars: int, m: nat)
    ensures '\n' !in HeaderLine(nvars, m)
    ensures !StartsWith(HeaderLine(nvars, m), "c") && Strip(HeaderLine(nvars, m)) != ""
    ensures StartsWith(HeaderLine(nvars, m), "p cnf")
    ensures |Words(HeaderLine(nvars, m))| >= 3 && ParseInt(Words(HeaderLine(nvars, m))[2]) == Some(nvars)
  {
    var header := HeaderLine(nvars, m);
    var nt := IntToString(nvars);
    var mt := IntToString(m);
    assert header == "p cnf " + nt + " " + mt;
    NoNewlineOfNoSpace(nt);
    NoNewlineOfNoSpace(mt);
    HeaderWords(nvars, m);
    assert header[..5] == "p cnf";
    assert header[|header| - 1] == mt[|mt| - 1];
    StripTrimmed(header);
    IntToStringRoundTrip(nvars);
  }

  /** Reading back what `write_dimacs_cnf` wrote gives the variable count and
      the clauses, except that empty clauses are lost: an empty clause is
      written as the line " 0", which reads as no clause. */
  lemma ReadWriteDimacs(nvars: int, clauses: Formula)
    requires NoZero(clauses)
    ensures ReadDimacs(WriteDimacs(nvars, clauses)) == Ok((nvars, NonEmpty(clauses)))
  {
    var header := HeaderLine(nvars, |clauses|);
    var body := ClauseLines(clauses);
    ReadHeaderLine(nvars, |clauses|);
    LinesCons(header, body);
    var ls := Lines(WriteDimacs(nvars, clauses));
    assert ls == [header] + Lines(body);
    ReadLinesHeaderStep(ls, 0, [], nvars);
    assert ls[1..] == Lines(body);
    ReadClauseLines(clauses, nvars, []);
    assert [] + NonEmpty(clauses) == NonEmpty(clauses);
  }
}
