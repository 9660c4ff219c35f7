/** The person list (PersonEntityAdapter): the full name shown for a
    person, and the identity and content comparisons the list uses to
    update its rows. */
module PersonList {
  import opened Base
  import opened Text

  /** A row of the person table. */
  datatype Person = Person(
    personId: int, username: string, password: string, accountId: int, nameId: int,
    first: string, middle: string, second: string, last: string, suffix: string)

  /** An optional name part: a space and the part, or nothing when blank. */
  function OptionalPart(part: string): (r: string)
    ensures IsBlank(part) ==> r == ""
    ensures !IsBlank(part) ==> r == " " + part
  {
    if IsBlank(part) then "" else " " + part
  }

  /** The name before trimming: first name, the non-blank middle and second
      names, the last name (always), the non-blank suffix, separated by
      single spaces. */
  function RawName(p: Person): string {
    p.first + OptionalPart(p.middle) + OptionalPart(p.second) + " " + p.last + OptionalPart(p.suffix)
  }

  /** The full name as shown: the assembled name, trimmed. */
  function FullName(p: Person): string {
    Trim(RawName(p))
  }

  /** Blank middle, second and suffix parts leave no trace: the name is the
      same as with those parts empty. */
  lemma BlankPartsAddNothing(p: Person)
    requires IsBlank(p.middle) && IsBlank(p.second) && IsBlank(p.suffix)
    ensures FullName(p) == Trim(p.first + " " + p.last)
  {
    assert RawName(p) == p.first + " " + p.last;
  }

  /** A name part that is non-blank and not padded with whitespace. */
  predicate IsWord(w: string) {
    |w| > 0 && !IsWhitespace(w[0]) && !IsWhitespace(w[|w| - 1])
  }

  /** When the first and last names are words and the other parts are
      words or blank, trimming has nothing to cut: the full name is the
      assembled name. */
  lemma FullNameOfWords(p: Person)
    requires IsWord(p.first) && IsWord(p.last)
    requires IsBlank(p.suffix) || IsWord(p.suffix)
    ensures FullName(p) == RawName(p)
  {
    var s := RawName(p);
    assert s[0] == p.first[0];
    if IsBlank(p.suffix) {
      assert s[|s| - 1] == p.last[|p.last| - 1];
    } else {
      assert s[|s| - 1] == p.suffix[|p.suffix| - 1];
    }
    TrimOfTrimmed(s);
  }

  /** Every non-whitespace character of a string lies inside what trimming
      keeps. */
  lemma TrimBoundsEnclose(s: string, i: nat)
    requires i < |s| && !IsWhitespace(s[i])
    ensures TrimBounds(s).0 <= i < TrimBounds(s).1
  {
  }

  /** Trimming a string keeps the trimmed core of every slice of it. */
  lemma TrimKeepsCore(s: string, p: nat, q: nat)
    requires p <= q <= |s|
    ensures Contains(Trim(s), Trim(s[p..q]))
  {
    var m := s[p..q];
    var b := TrimBounds(m);
    var core := Trim(m);
    assert core == m[b.0..b.1];
    if b.0 < b.1 {
      assert s[p + b.0] == m[b.0];
      assert s[p + b.1 - 1] == m[b.1 - 1];
      TrimBoundsEnclose(s, p + b.0);
      TrimBoundsEnclose(s, p + b.1 - 1);
      SliceOfSlice(s, p, q, b.0, b.1);
      CoreInsideTrim(s, p + b.0, p + b.1, core);
    } else {
      assert core == [];
      EmptyIsContained(Trim(s));
    }
  }

  lemma EmptyIsContained(t: string)
    ensures Contains(t, [])
  {
    assert OccursAt(t, [], 0);
  }

  lemma SliceOfSlice(s: string, p: nat, q: nat, i: nat, j: nat)
    requires p <= q <= |s| && i <= j <= q - p
    ensures s[p..q][i..j] == s[p + i..p + j]
  {
    forall k | 0 <= k < j - i ensures s[p..q][i..j][k] == s[p + i..p + j][k] {
      assert s[p..q][i..j][k] == s[p..q][i + k] == s[p + i + k];
    }
  }

  /** A slice between two kept characters occurs in the trimmed string. */
  lemma CoreInsideTrim(s: string, i: nat, j: nat, w: string)
    requires TrimBounds(s).0 <= i < j <= TrimBounds(s).1
    requires w == s[i..j]
    ensures Contains(Trim(s), w)
  {
    var b := TrimBounds(s);
    var t := Trim(s);
    assert t == s[b.0..b.1];
    SliceOfSlice(s, b.0, b.1, i - b.0, j - b.0);
    assert t[i - b.0..j - b.0] == w;
    assert OccursAt(t, w, i - b.0);
  }

  /** The last name is always part of the full name (its trimmed form), even
      when every other part is blank. */
  lemma LastNameAlwaysShown(p: Person)
    ensures Contains(FullName(p), Trim(p.last))
  {
    var a := p.first + OptionalPart(p.middle) + OptionalPart(p.second) + " ";
    var s := RawName(p);
    assert s == a + p.last + OptionalPart(p.suffix);
    assert s[|a|..|a| + |p.last|] == p.last;
    TrimKeepsCore(s, |a|, |a| + |p.last|);
  }

  /** `areItemsTheSame`: the same person id. */
  predicate SameItem(a: Person, b: Person) {
    a.personId == b.personId
  }

  /** `areContentsTheSame`: equal in every field. */
  predicate SameContents(a: Person, b: Person) {
    a == b
  }

  /** What a row shows: the full name, the username and the person id. */
  datatype Row = Row(fullName: string, username: string, personId: int)

  /** `bind`. */
  function Bind(p: Person): Row {
    Row(FullName(p), p.username, p.personId)
  }

  /** The differ's decision for an old and a new person. */
  function Diff(a: Person, b: Person): Change {
    DiffStep(SameItem(a, b), SameContents(a, b))
  }

  /** The differ keeps a row exactly when nothing about the person changed,
      rebinds it exactly when the same person's fields changed, and replaces
      it exactly when the id differs; a row whose shown texts would change
      is never kept. */
  lemma DiffDecidesRow(a: Person, b: Person)
    ensures Diff(a, b) == Kept <==> a == b
    ensures Diff(a, b) == Rebound <==> a.personId == b.personId && a != b
    ensures Diff(a, b) == Replaced <==> a.personId != b.personId
    ensures Bind(a) != Bind(b) ==> Diff(a, b) != Kept
  {
  }
}
