// Fully qualified names, as the DNS library tells them.
module DnsNames {
  function TrailingBackslashes(s: string): nat
    decreases |s|
  {
    if s != "" && s[|s| - 1] == '\\' then TrailingBackslashes(s[..|s| - 1]) + 1 else 0
  }

  // A final dot makes a name fully qualified unless a backslash escapes it.
  predicate IsFqdn(s: string) {
    s != "" && s[|s| - 1] == '.' && TrailingBackslashes(s[..|s| - 1]) % 2 == 0
  }

  function Fqdn(s: string): string {
    if IsFqdn(s) then s else s + "."
  }
}
