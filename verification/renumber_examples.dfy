/** Worked inputs for the renumbering substitution. */
module RenumberExamples {
  import opened Strings
  import opened Decimal
  import opened Renumbering

  lemma ShowNats()
    ensures ShowNat(617) == "617" && ShowNat(619) == "619" && ShowNat(624) == "624"
  {
  }

  lemma SmallValues()
    ensures DigitsValue("5") == 5 && DigitsValue("007") == 7 && DigitsValue("12") == 12
  {
    assert "007"[..2] == "00" && "00"[..1] == "0" && "0"[..0] == [];
    assert "12"[..1] == "1" && "1"[..0] == [];
    assert "5"[..0] == [];
  }

  /** `"5 Hello world"` becomes `"617 Hello world"`. */
  lemma HelloWorld(s: string, digits: string, rest: string)
    requires s == "5 Hello world" && digits == "5" && rest == "Hello world"
    ensures Renumber(s) == "617" + " " + rest
  {
    assert s == digits + [' '] + rest;
    assert NoNewline(s);
    LastLine(s, AddOffset);
    RenumberLineMatch(digits, ' ', rest, false);
    SmallValues();
    ShowNats();
  }

  /** Leading zeros are not kept: `"007 x"` becomes `"619 x"`. */
  lemma LeadingZeros(s: string, digits: string, rest: string)
    requires s == "007 x" && digits == "007" && rest == "x"
    ensures Renumber(s) == "619" + " " + rest
  {
    assert s == digits + [' '] + rest;
    assert NoNewline(s);
    LastLine(s, AddOffset);
    RenumberLineMatch(digits, ' ', rest, false);
    SmallValues();
    ShowNats();
  }

  /** A final line of digits alone is not renumbered. */
  lemma DigitsAtEnd(s: string)
    requires s == "12"
    ensures Renumber(s) == "12"
  {
    assert NoNewline(s) && AllDigits(s);
    LastLine(s, AddOffset);
    DigitsOnlyLastLine(s, AddOffset);
  }

  /** Followed by a newline it is: the newline is the matched whitespace, and
      it is written back. */
  lemma DigitsThenNewline(s: string, line: string)
    requires s == "12\n" && line == "12"
    ensures Renumber(s) == "624\n"
  {
    assert s == line + "\n" + [];
    assert NoNewline(line) && AllDigits(line);
    LineThenRest(line, [], AddOffset);
    DigitsOnlyLastLine(line, AddOffset);
    TwelveRaised(line);
  }

  lemma TwelveRaised(digits: string)
    requires digits == "12"
    ensures AllDigits(digits) && AddOffset(DigitsValue(digits)) == "624"
  {
    SmallValues();
    ShowNats();
  }

  /** A digit run that is not at a line start is left alone, even after a
      space. */
  lemma NotAtLineStart(s: string)
    requires s == "a 5 b"
    ensures Renumber(s) == s
  {
    assert NoNewline(s) && !IsDigit(s[0]);
    LastLine(s, AddOffset);
    RenumberLineKeeps(s, false, AddOffset);
  }

  /** `actor_assignments12.txt` is rewritten. */
  lemma TwelveSelected(path: string, digits: string)
    requires digits == "12" && path == FilePrefix + digits + FileSuffix
    ensures FileNumber(path) == Some(12) && Selected(path)
  {
    SmallValues();
    assert path == [] + FilePrefix + digits + FileSuffix + [];
    FileNumberOf([], digits, []);
  }

  /** `actor_assignments7.txt` is not: 7 is below `StartFile`. */
  lemma SevenSkipped(path: string, digits: string)
    requires digits == "7" && path == FilePrefix + digits + FileSuffix
    ensures FileNumber(path) == Some(7) && !Selected(path)
  {
    assert DigitsValue(digits) == 7 by {
      assert digits[..0] == [];
    }
    assert path == [] + FilePrefix + digits + FileSuffix + [];
    FileNumberOf([], digits, []);
  }
}
