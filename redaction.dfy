/** The redaction rule of HttpLoggingPolicy: a header or query parameter
    value is logged only when its name is on an allow-list, compared without
    regard to case; otherwise a fixed placeholder is logged. */
module Redaction {
  import opened Strings

  const RedactedPlaceholder: string := "REDACTED"

  /** A name is allowed when some allow-list entry equals it up to case. */
  ghost predicate Allowed(allowlist: set<string>, name: string) {
    exists a :: a in allowlist && Lower(a) == Lower(name)
  }

  /** The value to log for `key`: itself when allowed, the placeholder
      otherwise. */
  function Redact(allowlist: set<string>, key: string, value: string): (r: string)
    ensures Allowed(allowlist, key) ==> r == value
    ensures !Allowed(allowlist, key) ==> r == RedactedPlaceholder
  {
    var lowered := set a | a in allowlist :: Lower(a);
    if Lower(key) in lowered then value else RedactedPlaceholder
  }

  /** Redaction does not depend on the case of the name. */
  lemma RedactIgnoresCase(allowlist: set<string>, key1: string, key2: string, value: string)
    requires SameIgnoringCase(key1, key2)
    ensures Redact(allowlist, key1, value) == Redact(allowlist, key2, value)
  {
    LowerOfCaseVariants(key1, key2);
  }

  /** How a log shows header values: as they are, or redacted. */
  datatype ValueView = AsIs | RedactedBy(allowlist: set<string>)

  function Show(view: ValueView, key: string, value: string): string {
    match view
    case AsIs => value
    case RedactedBy(allowlist) => Redact(allowlist, key, value)
  }
}
