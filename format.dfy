/** Display formatting of stored dates (js/utils/format.js). */
module FormatUtils {
  import opened Strings

  /**
   * `formatDate`: turns `AAAA/MM/DD` into `DD/MM/AAAA` by reversing the three
   * `/`-separated parts; any text that does not split into exactly three parts is
   * returned unchanged, and the empty text gives the empty text.
   */
  function FormatDate(s: string): (r: string)
    ensures s == "" ==> r == ""
    ensures |Split(s, '/')| != 3 ==> r == s
    ensures |r| == |s|
  {
    if s == "" then ""
    else
      var parts := Split(s, '/');
      if |parts| != 3 then s
      else
        JoinSplit(s, '/');
        assert parts == [parts[0], parts[1], parts[2]];
        Join3(parts[0], parts[1], parts[2], '/');
        parts[2] + "/" + parts[1] + "/" + parts[0]
  }

  /** For exactly three parts `a/b/c` the result is `c/b/a`: its parts are the input's, reversed. */
  lemma FormatDateReversesParts(s: string)
    requires |Split(s, '/')| == 3
    ensures var p := Split(s, '/');
      Split(FormatDate(s), '/') == [p[2], p[1], p[0]]
  {
    var p := Split(s, '/');
    assert s != "";
    Join3(p[2], p[1], p[0], '/');
    assert FormatDate(s) == Join([p[2], p[1], p[0]], '/');
    SplitJoin([p[2], p[1], p[0]], '/');
  }

  /** Applying `formatDate` twice gives back the original text. */
  lemma FormatDateInvolution(s: string)
    ensures FormatDate(FormatDate(s)) == s
  {
    var p := Split(s, '/');
    if s != "" && |p| == 3 {
      FormatDateReversesParts(s);
      JoinSplit(s, '/');
      assert p == [p[0], p[1], p[2]];
      Join3(p[0], p[1], p[2], '/');
      assert FormatDate(s) != "";
    }
  }

  /**
   * `formatDateTime`: formats the part before the first space with `formatDate` and
   * keeps the part between the first and the second space; the empty text gives the
   * empty text and a text that starts with a space is returned unchanged.
   */
  function FormatDateTime(s: string): (r: string)
    ensures s == "" ==> r == ""
    ensures s != "" && s[0] == ' ' ==> r == s
  {
    if s == "" then ""
    else
      var parts := Split(s, ' ');
      var datePart := parts[0];
      if datePart == "" then
        s
      else
        var formattedDate := FormatDate(datePart);
        if |parts| < 2 || parts[1] == "" then formattedDate
        else formattedDate + " " + parts[1]
  }

  /** Without a space the whole text is a date. */
  lemma FormatDateTimeNoSpace(s: string)
    requires ' ' !in s
    ensures FormatDateTime(s) == FormatDate(s)
  {
  }

  /** `d + " " + t + rest` with a space-free date `d` and time `t` gives `formatDate(d) + " " + t`; whatever follows a second space is dropped. */
  lemma {:induction false} FormatDateTimeWithTime(d: string, t: string, rest: string)
    requires d != "" && t != "" && ' ' !in d && ' ' !in t
    requires rest == "" || rest[0] == ' '
    ensures FormatDateTime(d + " " + t + rest) == FormatDate(d) + " " + t
  {
    var s := d + " " + t + rest;
    SplitPrefix(d, ' ', t + rest);
    assert s == d + [' '] + (t + rest);
    if rest == "" {
      assert t + rest == t;
      assert Split(t + rest, ' ') == [t];
    } else {
      SplitPrefix(t, ' ', rest[1..]);
      assert t + rest == t + [' '] + rest[1..];
    }
  }
}
