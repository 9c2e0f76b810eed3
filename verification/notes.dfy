/**
 * The booking manager's notes builder: an optional customer block followed by
 * an optional free-text notes section.
 */
module Notes {
  import opened Common
  import opened Events

  const CustomerHeader: string := "Customer Information:\n"
  const NotesHeader: string := "\nNotes:\n"

  /** A falsy customer field is printed as "N/A". */
  function OrNA(s: string): string {
    if s == "" then "N/A" else s
  }

  function CustomerBlock(customerInfo: Option<CustomerInfo>): string {
    match customerInfo
    case None => ""
    case Some(ci) =>
      CustomerHeader + "Name: " + OrNA(ci.name) + "\nEmail: " + OrNA(ci.email)
        + "\nPhone: " + OrNA(ci.phone) + "\n"
  }

  /** Falsy additional notes add nothing; otherwise a headed section. */
  function NotesSection(additionalNotes: string): string {
    if additionalNotes != "" then NotesHeader + additionalNotes else ""
  }

  /** `formatNotes(customerInfo, additionalNotes)`. */
  function FormatNotes(customerInfo: Option<CustomerInfo>, additionalNotes: string): (r: string)
    ensures r == "" <==> customerInfo.None? && additionalNotes == ""
    ensures customerInfo.Some? <==> CustomerHeader <= r
    ensures additionalNotes != "" ==>
      |NotesHeader + additionalNotes| <= |r| && r[|r| - |NotesHeader + additionalNotes|..] == NotesHeader + additionalNotes
    ensures customerInfo.Some? ==>
      CustomerHeader + "Name: " + OrNA(customerInfo.value.name) + "\nEmail: " + OrNA(customerInfo.value.email)
        + "\nPhone: " + OrNA(customerInfo.value.phone) + "\n" <= r
    ensures customerInfo.None? ==> r == NotesSection(additionalNotes)
    ensures |r| == |CustomerBlock(customerInfo)| + |NotesSection(additionalNotes)|
  {
    var block := CustomerBlock(customerInfo);
    var tail := NotesSection(additionalNotes);
    var r := block + tail;
    assert block <= r;
    assert r[|block|..] == tail;
    assert customerInfo.None? && additionalNotes != "" ==> r[0] == '\n';
    r
  }

  lemma NotesSectionInjective(n1: string, n2: string)
    requires NotesSection(n1) == NotesSection(n2)
    ensures n1 == n2
  {
    if n1 != "" && n2 != "" {
      assert n1 == NotesSection(n1)[|NotesHeader|..];
    }
  }

  /** For fixed customer details, the notes text determines the additional notes. */
  lemma NotesAreRecoverable(customerInfo: Option<CustomerInfo>, n1: string, n2: string)
    requires FormatNotes(customerInfo, n1) == FormatNotes(customerInfo, n2)
    ensures n1 == n2
  {
    var block := CustomerBlock(customerInfo);
    var r := FormatNotes(customerInfo, n1);
    assert r[|block|..] == NotesSection(n1);
    assert r[|block|..] == NotesSection(n2);
    NotesSectionInjective(n1, n2);
  }

  /** An empty customer field and a literal "N/A" are written the same way. */
  lemma EmptyFieldsPrintAsNA(email: string, phone: string, notes: string)
    ensures FormatNotes(Some(CustomerInfo("", email, phone)), notes) == FormatNotes(Some(CustomerInfo("N/A", email, phone)), notes)
  {
  }
}
