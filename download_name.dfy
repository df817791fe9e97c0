/**
  The name given to a downloaded QR image (qr-generator.js:206-207): the first
  19 characters of an ISO 8601 timestamp as `Date.prototype.toISOString` writes
  it, with every `:` replaced by `-`, between `qr-code-` and `.png`.
*/
module DownloadName {

  const FILE_PREFIX: string := "qr-code-"
  const FILE_SUFFIX: string := ".png"

  /** How many characters of the timestamp are kept: up to the seconds. */
  const STAMP_LENGTH: nat := 19

  /** `s.slice(0, n)`: the first `n` characters, or all of `s` when it is shorter. */
  function Slice(s: string, n: nat): (r: string)
    ensures |r| == if |s| < n then |s| else n
    ensures r == s[..|r|]
  {
    if |s| <= n then s else s[..n]
  }

  /** `s.replace(/:/g, '-')`: every colon becomes a hyphen, every other character stays. */
  function ReplaceColons(s: string): (r: string)
    ensures |r| == |s|
    ensures forall i :: 0 <= i < |s| ==> r[i] == if s[i] == ':' then '-' else s[i]
  {
    if s == [] then []
    else [if s[0] == ':' then '-' else s[0]] + ReplaceColons(s[1..])
  }

  /** No colon survives the replacement. */
  lemma ReplaceColonsLeavesNone(s: string)
    ensures ':' !in ReplaceColons(s)
  {
    var r := ReplaceColons(s);
    forall i | 0 <= i < |r| ensures r[i] != ':' {
    }
  }

  /**
    The download filename for the timestamp `iso`: it starts with `qr-code-`,
    ends with `.png`, contains no colon, and between the two holds the first 19
    characters of the timestamp (all of it when it is shorter), colons turned
    into hyphens.
  */
  function DownloadFilename(iso: string): (r: string)
    ensures var n := if |iso| < STAMP_LENGTH then |iso| else STAMP_LENGTH;
      && |r| == |FILE_PREFIX| + n + |FILE_SUFFIX|
      && r[..|FILE_PREFIX|] == FILE_PREFIX
      && r[|r| - |FILE_SUFFIX|..] == FILE_SUFFIX
      && ':' !in r
      && (forall i :: 0 <= i < n ==> r[|FILE_PREFIX| + i] == if iso[i] == ':' then '-' else iso[i])
  {
    ReplaceColonsLeavesNone(Slice(iso, STAMP_LENGTH));
    FILE_PREFIX + ReplaceColons(Slice(iso, STAMP_LENGTH)) + FILE_SUFFIX
  }

  /** A digit, as `toISOString` writes every numeric field. */
  predicate IsDigit(c: char) {
    '0' <= c <= '9'
  }

  /**
    The leading `YYYY-MM-DDTHH:mm:ss` of a timestamp in the simplified ISO 8601
    format `toISOString` produces (ECMAScript 2023, section 21.4.1.32), for years
    0 to 9999.
  */
  ghost predicate IsIsoTimestamp(s: string) {
    && |s| >= STAMP_LENGTH
    && s[4] == '-' && s[7] == '-' && s[10] == 'T' && s[13] == ':' && s[16] == ':'
    && (forall i :: 0 <= i < STAMP_LENGTH && i !in {4, 7, 10, 13, 16} ==> IsDigit(s[i]))
  }

  /** The timestamp part of a filename, with the two time separators put back. */
  function StampOf(filename: string): (r: string)
    requires |filename| >= |FILE_PREFIX| + STAMP_LENGTH
    ensures |r| == STAMP_LENGTH
  {
    var stamp := filename[|FILE_PREFIX|..|FILE_PREFIX| + STAMP_LENGTH];
    stamp[13 := ':'][16 := ':']
  }

  /**
    For a timestamp as `toISOString` writes it, the filename loses nothing down
    to the second: the timestamp's first 19 characters can be read back from it.
  */
  lemma StampRoundTrip(iso: string)
    requires IsIsoTimestamp(iso)
    ensures |DownloadFilename(iso)| >= |FILE_PREFIX| + STAMP_LENGTH
    ensures StampOf(DownloadFilename(iso)) == iso[..STAMP_LENGTH]
  {
    var r := DownloadFilename(iso);
    var back := StampOf(r);
    forall i | 0 <= i < STAMP_LENGTH ensures back[i] == iso[i] {
      if i != 13 && i != 16 {
        assert iso[i] != ':' by {
          if i !in {4, 7, 10} {
            assert IsDigit(iso[i]);
          }
        }
      }
    }
  }
}
