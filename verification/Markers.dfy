/** What tells a generated file from a hand-written one (`emit_io.py`): a mark on the first line. */
module Markers {
  import opened Specs

  const AUTO_MARKER := "hpcagent_bench-autogen"
  const DACE_MARKER := "auto-generated from the numpy reference"

  predicate IsBreak(c: char) { c == '\n' || c == '\r' }

  /** What reading one line of text gives, without its end. */
  function FirstLine(s: string): string {
    if s == "" || IsBreak(s[0]) then "" else [s[0]] + FirstLine(s[1..])
  }

  /** The line without its comment lead. */
  function Uncommented(line: string): string {
    var body := StripLeft(line);
    if "#" <= body then StripLeft(body[1..])
    else if "//" <= body then StripLeft(body[2..])
    else if "!" <= body then StripLeft(body[1..])
    else body
  }

  predicate Contains(s: string, part: string) {
    exists i :: 0 <= i <= |s| && part <= s[i..]
  }

  /** `is_generated`, of the bytes of a file that exists. */
  predicate IsGenerated(text: string) {
    AUTO_MARKER <= Uncommented(FirstLine(text)) || Contains(FirstLine(text), DACE_MARKER)
  }

  /** The rest of the first line. */
  function Note(source: string): string {
    " -- generated from " + (if source == "" then "the numpy reference" else source) +
    "; edit the numpy reference and regenerate, or delete this line to keep local edits as a hand override.\n"
  }

  /** The line-comment leads of the languages: Python, C and C++, Fortran. */
  predicate IsLead(lead: string) { lead == "# " || lead == "// " || lead == "! " }

  /** What `write_generated` writes. */
  function Stamped(lead: string, source: string, text: string): string {
    lead + AUTO_MARKER + (Note(source) + text)
  }

  lemma {:induction false} FirstLineKeeps(start: string, rest: string)
    requires forall i :: 0 <= i < |start| ==> !IsBreak(start[i])
    ensures FirstLine(start + rest) == start + FirstLine(rest)
  {
    if start == "" {
      assert start + rest == rest;
    } else {
      assert (start + rest)[1..] == start[1..] + rest;
      FirstLineKeeps(start[1..], rest);
      assert [start[0]] + (start[1..] + FirstLine(rest)) == start + FirstLine(rest);
    }
  }

  lemma UncommentedLead(lead: string, body: string)
    requires IsLead(lead) && body != "" && !IsSpace(body[0])
    ensures Uncommented(lead + body) == body
  {
    var mark := if lead == "// " then "//" else if lead == "# " then "#" else "!";
    var line := mark + (" " + body);
    assert lead == mark + " ";
    assert lead + body == line && mark <= line && line[|mark|..] == " " + body;
    assert line[0] == mark[0] && !IsSpace(line[0]) && StripLeft(line) == line && IsSpace(' ');
    assert (" " + body)[1..] == body;
    assert StripLeft(" " + body) == StripLeft(body) == body;
  }

  /** A file the emitters write, in any of the languages, is a generated file. */
  lemma StampedIsGenerated(lead: string, source: string, text: string)
    requires IsLead(lead)
    ensures IsGenerated(Stamped(lead, source, text))
  {
    var rest := Note(source) + text;
    MarkedLine(lead, rest);
    MarkerFirst(lead, FirstLine(rest));
  }

  lemma MarkedLine(lead: string, rest: string)
    requires IsLead(lead)
    ensures FirstLine(lead + AUTO_MARKER + rest) == lead + AUTO_MARKER + FirstLine(rest)
  {
    FirstLineKeeps(lead + AUTO_MARKER, rest);
  }

  lemma MarkerFirst(lead: string, rest: string)
    requires IsLead(lead)
    ensures AUTO_MARKER <= Uncommented(lead + AUTO_MARKER + rest)
  {
    assert AUTO_MARKER[0] == 'h';
    assert lead + AUTO_MARKER + rest == lead + (AUTO_MARKER + rest);
    UncommentedLead(lead, AUTO_MARKER + rest);
  }
}
