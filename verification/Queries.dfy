// Queries over the token table. The database returns rows in any order.

module Queries {
  import opened Lists
  import opened LedgerState

  method Rows(tokens: map<TokenId, Token>, keep: Token -> bool) returns (rows: seq<TokenId>)
    ensures Distinct(rows) && forall t :: t in rows <==> t in tokens && keep(tokens[t])
  {
    rows := [];
    var left := tokens.Keys;
    while left != {}
      invariant left <= tokens.Keys && Distinct(rows)
      invariant forall t :: t in rows <==> t in tokens && t !in left && keep(tokens[t])
      decreases left
    {
      var t :| t in left;
      left := left - {t};
      if keep(tokens[t]) { rows := rows + [t]; }
    }
  }
}
