/** What the two self-assessment scripts, create_self_assessments.py and
    create_mid-quarter_self-assessment.py, derive alike from a student of the Studio Database: the
    file name from the student's name, the team cell and the progress-map cell of the Basic Info
    tab. */
module Assessments {
  import opened Wrappers
  import opened Text

  // ---------------------------------------------------------------------------------------------
  // File name: first name and last initial
  // ---------------------------------------------------------------------------------------------

  /** `"{first} {lasti}" + suffix` where `first` is the first piece of the name split on spaces
      and `lasti` the first character of the last piece; indexing an empty last piece is an
      `IndexError`. */
  function StudentFilename(name: string, suffix: string): Result<string> {
    var pieces := Split(name, ' ');
    var last := pieces[|pieces| - 1];
    if last == "" then Err(IndexError) else Ok(pieces[0] + " " + [last[0]] + suffix)
  }

  /** A name with a file name: not empty and not ending with a space, so that its last
      space-separated piece has a first character. */
  predicate HasInitial(name: string) {
    name != "" && name[|name| - 1] != ' '
  }

  /** The file name can be derived exactly for names with an initial; otherwise the error is an
      `IndexError`. */
  lemma StudentFilenameFails(name: string, suffix: string)
    ensures StudentFilename(name, suffix).Ok? <==> HasInitial(name)
    ensures StudentFilename(name, suffix).Err? ==> StudentFilename(name, suffix).error == IndexError
  {
    LastPieceEmpty(name, ' ');
  }

  /** The file name is the name up to its first space, a space, the character after the name's
      last space (its first character when it has none), and the suffix. */
  lemma StudentFilenameParts(name: string, suffix: string)
    requires StudentFilename(name, suffix).Ok?
    ensures AfterLast(name, ' ') < |name|
    ensures StudentFilename(name, suffix).value
            == name[..FirstIndex(name, ' ')] + " " + [name[AfterLast(name, ' ')]] + suffix
  {
    LastPieceOfFilename(name, suffix);
    FilenameOfPieces(name, suffix);
  }

  lemma LastPieceOfFilename(name: string, suffix: string)
    requires StudentFilename(name, suffix).Ok?
    ensures var pieces := Split(name, ' '); pieces[|pieces| - 1] != ""
  {
  }

  lemma FilenameOfPieces(name: string, suffix: string)
    requires var pieces := Split(name, ' '); pieces[|pieces| - 1] != ""
    ensures AfterLast(name, ' ') < |name|
    ensures StudentFilename(name, suffix).Ok?
    ensures StudentFilename(name, suffix).value
            == name[..FirstIndex(name, ' ')] + " " + [name[AfterLast(name, ' ')]] + suffix
  {
    InitialAfterLastSpace(name);
    SplitFirst(name, ' ');
  }

  lemma InitialAfterLastSpace(name: string)
    requires var pieces := Split(name, ' '); pieces[|pieces| - 1] != ""
    ensures AfterLast(name, ' ') < |name|
    ensures var pieces := Split(name, ' '); pieces[|pieces| - 1][0] == name[AfterLast(name, ' ')]
  {
    SplitLast(name, ' ');
  }

  /** The first name is kept whole: it is the first space-separated piece of the file name too. */
  lemma StudentFilenameKeepsFirstName(name: string, suffix: string)
    requires StudentFilename(name, suffix).Ok?
    ensures Split(StudentFilename(name, suffix).value, ' ')[0] == Split(name, ' ')[0]
  {
    var pieces := Split(name, ' ');
    var rest := [pieces[|pieces| - 1][0]] + suffix;
    assert StudentFilename(name, suffix).value == pieces[0] + [' '] + rest;
    SplitPiecesLackSeparator(name, ' ');
    SplitAfterPiece(pieces[0], ' ', rest);
  }

  // ---------------------------------------------------------------------------------------------
  // Team cell
  // ---------------------------------------------------------------------------------------------

  const MemberSeparator: string := "; "

  /** `"{teamname} ({teammembers})"` with the members joined by `"; "`. */
  function TeamLabel(teamName: string, members: seq<string>): (cell: string)
    ensures |cell| >= |teamName| + 3
  {
    teamName + " (" + Join(members, MemberSeparator) + ")"
  }

  /** The part of a string after its first character, if any. */
  function Unprefixed(s: string): string {
    if s == [] then s else s[1..]
  }

  /** Reads the member list back from a team cell: the text between `" ("` and the closing
      parenthesis, split on `;`, with the space that follows each `;` removed. */
  function LabelMembers(cell: string, teamName: string): seq<string>
    requires |cell| >= |teamName| + 3
  {
    Unspaced(Split(cell[|teamName| + 2..|cell| - 1], ';'))
  }

  /** The first piece, then the others without their first character. */
  function Unspaced(pieces: seq<string>): seq<string>
    requires |pieces| >= 1
  {
    [pieces[0]] + seq(|pieces| - 1, i requires 0 <= i < |pieces| - 1 => Unprefixed(pieces[i + 1]))
  }

  /** Each part preceded by a space. */
  function Spaced(parts: seq<string>): (r: seq<string>)
    ensures |r| == |parts|
  {
    seq(|parts|, i requires 0 <= i < |parts| => " " + parts[i])
  }

  lemma {:induction false} JoinSpaced(parts: seq<string>)
    requires |parts| >= 1
    ensures Join(Spaced(parts), ";") == " " + Join(parts, MemberSeparator)
  {
    if |parts| > 1 {
      JoinSpaced(parts[1..]);
      assert Spaced(parts)[1..] == Spaced(parts[1..]);
      assert Join(Spaced(parts), ";") == " " + parts[0] + ";" + " " + Join(parts[1..], MemberSeparator);
    }
  }

  /** Joining with `"; "` is joining with `;` once a space is put before every part but the
      first. */
  lemma JoinWithSpace(members: seq<string>)
    requires |members| >= 1
    ensures Join(members, MemberSeparator) == Join([members[0]] + Spaced(members[1..]), ";")
  {
    if |members| > 1 {
      JoinWithSpaceMore(members);
    } else {
      assert [members[0]] + Spaced(members[1..]) == [members[0]];
    }
  }

  lemma JoinWithSpaceMore(members: seq<string>)
    requires |members| > 1
    ensures Join(members, MemberSeparator) == Join([members[0]] + Spaced(members[1..]), ";")
  {
    var rest := Join(members[1..], MemberSeparator);
    JoinCons(members[0], members[1..]);
    JoinSpaced(members[1..]);
    SemicolonThenSpace(members[0], rest);
  }

  lemma SemicolonThenSpace(a: string, b: string)
    ensures a + ";" + (" " + b) == a + MemberSeparator + b
  {
  }

  lemma JoinCons(first: string, more: seq<string>)
    requires |more| >= 1
    ensures Join([first] + Spaced(more), ";") == first + ";" + Join(Spaced(more), ";")
  {
    assert ([first] + Spaced(more))[1..] == Spaced(more);
  }

  lemma UnspacedSpaced(members: seq<string>)
    requires |members| >= 1
    ensures Unspaced([members[0]] + Spaced(members[1..])) == members
  {
    var r := Unspaced([members[0]] + Spaced(members[1..]));
    forall i | 1 <= i < |members|
      ensures r[i] == members[i]
    {
      assert (" " + members[i])[1..] == members[i];
    }
  }

  /** The team cell starts with the team name and lists the members in order: as long as no
      member name contains `;`, the members can be read back from it. */
  lemma TeamLabelMembers(teamName: string, members: seq<string>)
    requires |members| >= 1
    requires forall i :: 0 <= i < |members| ==> ';' !in members[i]
    ensures TeamLabel(teamName, members)[..|teamName|] == teamName
    ensures LabelMembers(TeamLabel(teamName, members), teamName) == members
  {
    var cell := TeamLabel(teamName, members);
    var parts := [members[0]] + Spaced(members[1..]);
    assert cell[|teamName| + 2..|cell| - 1] == Join(members, MemberSeparator);
    JoinWithSpace(members);
    assert forall i :: 0 <= i < |parts| ==> ';' !in parts[i];
    SplitJoin(parts, ';');
    UnspacedSpaced(members);
  }

  // ---------------------------------------------------------------------------------------------
  // Progress-map cell and the fixed placeholders
  // ---------------------------------------------------------------------------------------------

  const ProgressMapPlaceholder: string := "individual progress map link"
  const DesignLogPlaceholder: string := "design log link"

  /** The individual progress map link, or a placeholder when the roster cell was empty. */
  function ProgressMapCell(link: string): (cell: string)
    ensures cell != ""
    ensures link != "" ==> cell == link
  {
    if link != "" then link else ProgressMapPlaceholder
  }

  /** "Jane Doe" gets "Jane D" followed by the suffix. */
  lemma FilenameOfJaneDoe(suffix: string)
    ensures StudentFilename("Jane Doe", suffix) == Ok("Jane D" + suffix)
  {
    assert "Jane Doe" == "Jane" + [' '] + "Doe";
    SplitAfterPiece("Jane", ' ', "Doe");
    SplitWithoutSeparator("Doe", ' ');
    assert "Jane" + " " + ['D'] == "Jane D";
  }
}
