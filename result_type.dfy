/**
 * The `result_type` argument of `query`: a string such as `json`,
 * `json:users:array:id` or `http_code`, split on `:` into the kind, the
 * result key, the expected type of that key's value, and a column (or
 * `count`). Parts that are not given read as empty.
 */
module ResultTypes {
  import opened PhpString

  datatype ResultType = ResultType(kind: string, rkey: string, rtype: string, column: string)

  /** `[$result_type, $rkey, $rtype, $column] = explode(':', $result_type)`:
      parts past the fourth are ignored. */
  function ParseResultType(s: string): ResultType
  {
    var parts := Explode(s, ':');
    ResultType(parts[0], PartOr(parts, 1), PartOr(parts, 2), PartOr(parts, 3))
  }

  /** The descriptor written back in the mini-language. */
  function Format(rt: ResultType): string
  {
    rt.kind + ":" + rt.rkey + ":" + rt.rtype + ":" + rt.column
  }

  predicate NoColon(rt: ResultType)
  {
    ':' !in rt.kind && ':' !in rt.rkey && ':' !in rt.rtype && ':' !in rt.column
  }

  /** Parsing a four-part descriptor recovers its four parts. */
  lemma ParseFormat(rt: ResultType)
    requires NoColon(rt)
    ensures ParseResultType(Format(rt)) == rt
  {
    var parts := [rt.kind, rt.rkey, rt.rtype, rt.column];
    assert Implode(parts, [':']) == Format(rt) by {
      assert Implode(parts[3..], [':']) == rt.column;
      assert Implode(parts[2..], [':']) == rt.rtype + ":" + rt.column;
      assert Implode(parts[1..], [':']) == rt.rkey + ":" + rt.rtype + ":" + rt.column;
    }
    ExplodeImplode(parts, ':');
  }

  /** A bare kind such as `string`, `json` or `http_code` has empty key,
      type and column. */
  lemma ParseBareKind(kind: string)
    requires ':' !in kind
    ensures ParseResultType(kind) == ResultType(kind, "", "", "")
  {
    ExplodeNoSep(kind, ':');
  }

  /** `kind:rkey:rtype` leaves the column empty. */
  lemma ParseThreeParts(kind: string, rkey: string, rtype: string)
    requires ':' !in kind && ':' !in rkey && ':' !in rtype
    ensures ParseResultType(kind + ":" + rkey + ":" + rtype) == ResultType(kind, rkey, rtype, "")
  {
    var parts := [kind, rkey, rtype];
    assert Implode(parts, [':']) == kind + ":" + rkey + ":" + rtype by {
      assert Implode(parts[2..], [':']) == rtype;
      assert Implode(parts[1..], [':']) == rkey + ":" + rtype;
    }
    ExplodeImplode(parts, ':');
  }
}
