/**
 * The `-senderDomain` allow-list of the command (the arrayDomains flag value
 * of cmd/sendmail/main.go): a list of domains that `Set` grows in place, and
 * the authorisation rule both ingestion paths apply to a sender's domain.
 */
module Domains {
  import opened Wrappers
  import opened GoStrings
  import opened Mail

  /**
   * The rule of both checks: an empty allow-list lets every domain through,
   * a non-empty one exactly the domains it lists.
   */
  predicate Authorizes(allowed: seq<string>, domain: string)
  {
    |allowed| == 0 || domain in allowed
  }

  class DomainList {
    var domains: seq<string>

    constructor ()
      ensures domains == []
    {
      domains := [];
    }

    /** String: the entries joined with commas. */
    function String(): (s: string)
      reads this
      ensures |domains| > 0 && (forall i :: 0 <= i < |domains| ==> ',' !in domains[i])
              ==> Split(s, ',') == domains
      ensures forall i :: 0 <= i < |domains| ==> GoStrings.Contains(s, domains[i])
    {
      JoinPieces(domains, ",");
      if |domains| > 0 && (forall i :: 0 <= i < |domains| ==> ',' !in domains[i]) then
        SplitJoin(domains, ',');
        Join(domains, ",")
      else
        Join(domains, ",")
    }

    /** Set: the value goes after the existing entries; it never fails. */
    method Set(value: string) returns (err: Option<Error>)
      modifies this
      ensures domains == old(domains) + [value]
      ensures err == None
    {
      domains := domains + [value];
      err := None;
    }

    /** Contains: an entry equal to the argument, character for character. */
    method Contains(str: string) returns (found: bool)
      ensures found <==> str in domains
    {
      var i := 0;
      while i < |domains|
        invariant 0 <= i <= |domains|
        invariant str !in domains[..i]
      {
        if domains[i] == str {
          return true;
        }
        i := i + 1;
      }
      assert domains[..i] == domains;
      return false;
    }
  }

  /** Each part of a list occurs in the list joined with any separator. */
  lemma {:induction false} JoinPieces(parts: seq<string>, sep: string)
    ensures forall i :: 0 <= i < |parts| ==> Contains(Join(parts, sep), parts[i])
  {
    if |parts| > 1 {
      JoinPieces(parts[1..], sep);
      var rest := Join(parts[1..], sep);
      assert Join(parts, sep) == parts[0] + (sep + rest);
      forall i | 0 <= i < |parts|
        ensures Contains(Join(parts, sep), parts[i])
      {
        if i == 0 {
          ContainsPrefix(parts[0], sep + rest);
        } else {
          assert parts[i] == parts[1..][i - 1];
          ContainsSuffix(parts[0] + sep, rest, parts[i]);
          assert parts[0] + sep + rest == parts[0] + (sep + rest);
        }
      }
    } else if |parts| == 1 {
      ContainsPrefix(parts[0], "");
      assert parts[0] + "" == parts[0];
    }
  }
}
