/** The public directory's search box: an accent- and case-insensitive substring search
    over every text field of a contact and of its additional contacts. */
module DirectoryTable {
  import opened Text
  import Filtering
  import opened Contactos

  /** The combining diacritical marks, U+0300 to U+036F. */
  predicate IsCombiningMark(c: char) {
    0x300 <= c as int <= 0x36F
  }

  predicate NotCombiningMark(c: char) {
    !IsCombiningMark(c)
  }

  /** The string `normalizeText` strips: lower-cased, then in canonical decomposition
      (Unicode Standard Annex #15). `lower` and `nfd` are the per-character tables of
      `toLowerCase` and `normalize("NFD")`, which the model leaves abstract. */
  function Decomposed(lower: char -> string, nfd: char -> string, s: string): string {
    MapChars(nfd, MapChars(lower, s))
  }

  /** `normalizeText`: the decomposed string without its combining marks. */
  function NormalizeText(lower: char -> string, nfd: char -> string, s: string): string {
    Filtering.Filter(Decomposed(lower, nfd, s), NotCombiningMark)
  }

  /** Normalising keeps every character of the decomposed string except the combining
      marks, in order, and nothing else. */
  lemma NormalizeTextSpec(lower: char -> string, nfd: char -> string, s: string)
    ensures forall c :: c in NormalizeText(lower, nfd, s) <==>
      c in Decomposed(lower, nfd, s) && !IsCombiningMark(c)
    ensures Filtering.IsSubsequence(NormalizeText(lower, nfd, s), Decomposed(lower, nfd, s))
  {
    Filtering.FilterMembers(Decomposed(lower, nfd, s), NotCombiningMark);
    Filtering.FilterIsSubsequence(Decomposed(lower, nfd, s), NotCombiningMark);
  }

  /** A letter whose decomposition is its base letter followed by a combining mark
      normalises to the same text as the base letter: the search ignores accents. */
  lemma AccentInsensitive(lower: char -> string, nfd: char -> string, accented: char, base: char, mark: char)
    requires lower(accented) == [accented] && nfd(accented) == [base, mark]
    requires lower(base) == [base] && nfd(base) == [base]
    requires IsCombiningMark(mark) && !IsCombiningMark(base)
    ensures NormalizeText(lower, nfd, [accented]) == NormalizeText(lower, nfd, [base]) == [base]
  {
    assert [accented][1..] == [] && [base][1..] == [];
    assert MapChars(lower, [accented]) == [accented];
    assert MapChars(nfd, [accented]) == [base, mark];
    assert MapChars(lower, [base]) == [base];
    assert MapChars(nfd, [base]) == [base];
    Filtering.FilterSnoc([], base, NotCombiningMark);
    assert [] + [base] == [base];
    Filtering.FilterSnoc([base], mark, NotCombiningMark);
  }

  /** The normalised field contains the normalised search term. */
  predicate FieldMatches(lower: char -> string, nfd: char -> string, term: string, field: string) {
    Contains(NormalizeText(lower, nfd, field), NormalizeText(lower, nfd, term))
  }

  predicate AdditionalMatches(lower: char -> string, nfd: char -> string, term: string, a: Additional) {
    || FieldMatches(lower, nfd, term, a.nombre)
    || FieldMatches(lower, nfd, term, a.unidad)
    || FieldMatches(lower, nfd, term, a.cargo)
    || FieldMatches(lower, nfd, term, a.direccion)
    || FieldMatches(lower, nfd, term, a.ubicacion)
  }

  /** The `filteredContacts` predicate: one of the eight primary fields, or one of the
      five fields of some additional contact, matches. */
  predicate ContactMatches(lower: char -> string, nfd: char -> string, term: string, c: Contact) {
    || FieldMatches(lower, nfd, term, c.nombre)
    || FieldMatches(lower, nfd, term, c.anexo)
    || FieldMatches(lower, nfd, term, c.numero)
    || FieldMatches(lower, nfd, term, c.tipo)
    || FieldMatches(lower, nfd, term, c.direccion)
    || FieldMatches(lower, nfd, term, c.unidad)
    || FieldMatches(lower, nfd, term, c.cargo)
    || FieldMatches(lower, nfd, term, c.ubicacion)
    || exists a :: a in c.additionalContacts && AdditionalMatches(lower, nfd, term, a)
  }

  function MatchesTerm(lower: char -> string, nfd: char -> string, term: string): Contact -> bool {
    c => ContactMatches(lower, nfd, term, c)
  }

  /** `filteredContacts`. */
  function FilteredContacts(lower: char -> string, nfd: char -> string, contacts: seq<Contact>, term: string): seq<Contact> {
    Filtering.Filter(contacts, MatchesTerm(lower, nfd, term))
  }

  /** A contact is shown exactly when it is in the list and matches the term, and the
      shown contacts keep their order, none added or repeated; the counter above the
      table, the length of the filtered list, is the number of contacts that match. */
  lemma FilteredContactsSpec(lower: char -> string, nfd: char -> string, contacts: seq<Contact>, term: string)
    ensures forall c :: c in FilteredContacts(lower, nfd, contacts, term) <==>
      c in contacts && ContactMatches(lower, nfd, term, c)
    ensures Filtering.IsSubsequence(FilteredContacts(lower, nfd, contacts, term), contacts)
    ensures |FilteredContacts(lower, nfd, contacts, term)| == Filtering.Count(contacts, MatchesTerm(lower, nfd, term))
  {
    Filtering.FilterMembers(contacts, MatchesTerm(lower, nfd, term));
    Filtering.FilterIsSubsequence(contacts, MatchesTerm(lower, nfd, term));
    Filtering.CountIsFilterLength(contacts, MatchesTerm(lower, nfd, term));
  }

  /** An empty search box shows every contact. */
  lemma EmptyTermKeepsAll(lower: char -> string, nfd: char -> string, contacts: seq<Contact>)
    ensures FilteredContacts(lower, nfd, contacts, "") == contacts
  {
    assert NormalizeText(lower, nfd, "") == "";
    forall c | c in contacts
      ensures MatchesTerm(lower, nfd, "")(c)
    {
      ContainsEmpty(NormalizeText(lower, nfd, c.nombre));
    }
    Filtering.FilterAll(contacts, MatchesTerm(lower, nfd, ""));
  }
}
