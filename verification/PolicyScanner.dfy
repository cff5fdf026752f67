/** The scan that makes a JSON policy body unambiguous before the policy walkers see it. */
module PolicyScanner {
  import opened Text

  const MAX_POLICY_JSON_DEPTH := 128

  /** What `json.Decoder.Token` returns. */
  datatype Token =
    | OpenObject | CloseObject | OpenArray | CloseArray
    | Str(text: string) | Num(literal: string) | Bool(value: bool) | Null

  datatype Field = Field(key: string, value: Tree)

  /** A JSON value with the members of its objects in document order. */
  datatype Tree =
    | StrTree(text: string) | NumTree(literal: string) | BoolTree(value: bool) | NullTree
    | ArrayTree(items: seq<Tree>)
    | ObjectTree(fields: seq<Field>)

  // ----- Names

  /** `unicode.IsSpace` */
  predicate IsGoSpace(c: char) {
    || '\t' <= c <= '\r' || c == ' ' || c == '\U{85}' || c == '\U{A0}' || c == '\U{1680}'
    || '\U{2000}' <= c <= '\U{200A}' || c == '\U{2028}' || c == '\U{2029}'
    || c == '\U{202F}' || c == '\U{205F}' || c == '\U{3000}'
  }

  function TrimSpace(s: string): string {
    if s == "" then ""
    else if IsGoSpace(s[0]) then TrimSpace(s[1..])
    else if IsGoSpace(s[|s| - 1]) then TrimSpace(s[..|s| - 1])
    else s
  }

  function Normalize(key: string): string {
    ToLower(TrimSpace(key))
  }

  // ----- Documents

  function Tokens(tree: Tree): seq<Token> {
    match tree
    case StrTree(text) => [Str(text)]
    case NumTree(literal) => [Num(literal)]
    case BoolTree(value) => [Bool(value)]
    case NullTree => [Null]
    case ArrayTree(items) => [OpenArray] + ItemTokens(items) + [CloseArray]
    case ObjectTree(fields) => [OpenObject] + FieldTokens(fields) + [CloseObject]
  }

  function ItemTokens(items: seq<Tree>): seq<Token> {
    if items == [] then [] else Tokens(items[0]) + ItemTokens(items[1..])
  }

  function FieldTokens(fields: seq<Field>): seq<Token> {
    if fields == [] then []
    else [Str(fields[0].key)] + Tokens(fields[0].value) + FieldTokens(fields[1..])
  }

  /** How many levels a value nests below itself. */
  function Height(tree: Tree): nat {
    match tree
    case ArrayTree(items) => ItemsHeight(items)
    case ObjectTree(fields) => FieldsHeight(fields)
    case _ => 0
  }

  function Max(a: nat, b: nat): nat {
    if a < b then b else a
  }

  function ItemsHeight(items: seq<Tree>): nat {
    if items == [] then 0 else Max(1 + Height(items[0]), ItemsHeight(items[1..]))
  }

  function FieldsHeight(fields: seq<Field>): nat {
    if fields == [] then 0 else Max(1 + Height(fields[0].value), FieldsHeight(fields[1..]))
  }

  /** No object has two keys that are the same up to case and surrounding space. */
  predicate DistinctKeys(tree: Tree) {
    match tree
    case ArrayTree(items) => forall i :: 0 <= i < |items| ==> DistinctKeys(items[i])
    case ObjectTree(fields) =>
      && (forall i, j :: 0 <= i < j < |fields| ==> Normalize(fields[i].key) != Normalize(fields[j].key))
      && (forall i :: 0 <= i < |fields| ==> DistinctKeys(fields[i].value))
    case _ => true
  }

  // ----- The scan, on token sequences

  predicate Closes(token: Token) {
    token.CloseObject? || token.CloseArray?
  }

  /** What remains behind one value; None where the scan returns an error. */
  function Scan(tokens: seq<Token>, depth: nat): (r: Option<seq<Token>>)
    ensures r.Some? ==> |r.value| < |tokens|
    decreases |tokens|, 0
  {
    if depth > MAX_POLICY_JSON_DEPTH || tokens == [] || Closes(tokens[0]) then None
    else if tokens[0].OpenObject? then ScanFields(tokens[1..], {}, depth)
    else if tokens[0].OpenArray? then ScanItems(tokens[1..], depth)
    else Some(tokens[1..])
  }

  function ScanFields(tokens: seq<Token>, keys: set<string>, depth: nat): (r: Option<seq<Token>>)
    ensures r.Some? ==> |r.value| < |tokens|
    decreases |tokens|, 1
  {
    if tokens == [] then None
    else if Closes(tokens[0]) then if tokens[0].CloseObject? then Some(tokens[1..]) else None
    else if !tokens[0].Str? || Normalize(tokens[0].text) in keys then None
    else
      var rest := Scan(tokens[1..], depth + 1);
      if rest.None? then None else ScanFields(rest.value, keys + {Normalize(tokens[0].text)}, depth)
  }

  function ScanItems(tokens: seq<Token>, depth: nat): (r: Option<seq<Token>>)
    ensures r.Some? ==> |r.value| < |tokens|
    decreases |tokens|, 1
  {
    if tokens == [] then None
    else if Closes(tokens[0]) then if tokens[0].CloseArray? then Some(tokens[1..]) else None
    else
      var rest := Scan(tokens, depth + 1);
      if rest.None? then None else ScanItems(rest.value, depth)
  }

  // ----- The program

  /** `json.Decoder`, reduced to the tokens it has yet to deliver. */
  class Decoder {
    var tokens: seq<Token>

    constructor (tokens: seq<Token>)
      ensures this.tokens == tokens
    {
      this.tokens := tokens;
    }

    predicate More()
      reads this
    {
      tokens != [] && !Closes(tokens[0])
    }

    method Token() returns (token: Option<Token>)
      modifies this
      ensures token == if old(tokens) == [] then None else Some(old(tokens)[0])
      ensures tokens == if old(tokens) == [] then [] else old(tokens)[1..]
    {
      if tokens == [] { return None; }
      token := Some(tokens[0]);
      tokens := tokens[1..];
    }
  }

  /** `scanPolicyJSONValue`; false where it returns an error. */
  method ScanPolicyJSONValue(decoder: Decoder, depth: nat) returns (ok: bool)
    modifies decoder
    ensures ok == Scan(old(decoder.tokens), depth).Some?
    ensures ok ==> decoder.tokens == Scan(old(decoder.tokens), depth).value
    decreases |decoder.tokens|, 0
  {
    if depth > MAX_POLICY_JSON_DEPTH { return false; }
    var token := decoder.Token();
    if token.None? { return false; }
    match token.value
    case OpenObject =>
      ok := ScanObject(decoder, depth);
    case OpenArray =>
      ok := ScanArray(decoder, depth);
    case CloseObject => return false;
    case CloseArray => return false;
    case _ => return true;
  }

  /** The branch for objects. */
  method ScanObject(decoder: Decoder, depth: nat) returns (ok: bool)
    modifies decoder
    ensures ok == ScanFields(old(decoder.tokens), {}, depth).Some?
    ensures ok ==> decoder.tokens == ScanFields(old(decoder.tokens), {}, depth).value
    decreases |decoder.tokens|, 1
  {
    var keys: set<string> := {};
    while decoder.More()
      invariant |decoder.tokens| <= |old(decoder.tokens)|
      invariant ScanFields(decoder.tokens, keys, depth) == ScanFields(old(decoder.tokens), {}, depth)
      decreases |decoder.tokens|
    {
      var keyToken := decoder.Token();
      if keyToken.None? || !keyToken.value.Str? { return false; }
      var normalizedKey := Normalize(keyToken.value.text);
      if normalizedKey in keys { return false; }
      keys := keys + {normalizedKey};
      var scanned := ScanPolicyJSONValue(decoder, depth + 1);
      if !scanned { return false; }
    }
    var closing := decoder.Token();
    return closing == Some(CloseObject);
  }

  /** The branch for arrays. */
  method ScanArray(decoder: Decoder, depth: nat) returns (ok: bool)
    modifies decoder
    ensures ok == ScanItems(old(decoder.tokens), depth).Some?
    ensures ok ==> decoder.tokens == ScanItems(old(decoder.tokens), depth).value
    decreases |decoder.tokens|, 1
  {
    while decoder.More()
      invariant |decoder.tokens| <= |old(decoder.tokens)|
      invariant ScanItems(decoder.tokens, depth) == ScanItems(old(decoder.tokens), depth)
      decreases |decoder.tokens|
    {
      var scanned := ScanPolicyJSONValue(decoder, depth + 1);
      if !scanned { return false; }
    }
    var closing := decoder.Token();
    return closing == Some(CloseArray);
  }

  /** `rejectDuplicateJSONKeys`: one value and nothing behind it. `clean` says that the input ends behind
      the tokens, rather than in something the decoder cannot read. */
  method RejectDuplicateJSONKeys(tokens: seq<Token>, clean: bool) returns (ok: bool)
    ensures ok <==> clean && Scan(tokens, 0) == Some([])
  {
    var decoder := new Decoder(tokens);
    ok := ScanPolicyJSONValue(decoder, 0);
    ok := ok && decoder.tokens == [] && clean;
  }

  // ----- What the scan accepts

  predicate Fits(tree: Tree, depth: nat) {
    depth + Height(tree) <= MAX_POLICY_JSON_DEPTH && DistinctKeys(tree)
  }

  /** The members of an object fit behind members with the given keys. */
  predicate FieldsFit(fields: seq<Field>, keys: set<string>, depth: nat) {
    && depth + FieldsHeight(fields) <= MAX_POLICY_JSON_DEPTH
    && (forall i :: 0 <= i < |fields| ==> Normalize(fields[i].key) !in keys && DistinctKeys(fields[i].value))
    && (forall i, j :: 0 <= i < j < |fields| ==> Normalize(fields[i].key) != Normalize(fields[j].key))
  }

  predicate ItemsFit(items: seq<Tree>, depth: nat) {
    && depth + ItemsHeight(items) <= MAX_POLICY_JSON_DEPTH
    && (forall i :: 0 <= i < |items| ==> DistinctKeys(items[i]))
  }

  lemma FieldsFitStep(fields: seq<Field>, keys: set<string>, depth: nat)
    requires fields != [] && depth <= MAX_POLICY_JSON_DEPTH
    ensures FieldsFit(fields, keys, depth) <==>
            && Normalize(fields[0].key) !in keys
            && Fits(fields[0].value, depth + 1)
            && FieldsFit(fields[1..], keys + {Normalize(fields[0].key)}, depth)
  {
    var rest := fields[1..];
    if Normalize(fields[0].key) !in keys && Fits(fields[0].value, depth + 1)
       && FieldsFit(rest, keys + {Normalize(fields[0].key)}, depth) {
      forall i | 0 <= i < |fields|
        ensures Normalize(fields[i].key) !in keys && DistinctKeys(fields[i].value)
      {
        if i > 0 { assert fields[i] == rest[i - 1]; }
      }
      forall i, j | 0 <= i < j < |fields|
        ensures Normalize(fields[i].key) != Normalize(fields[j].key)
      {
        assert fields[j] == rest[j - 1];
        if i > 0 { assert fields[i] == rest[i - 1]; }
      }
    }
  }

  lemma ItemsFitStep(items: seq<Tree>, depth: nat)
    requires items != [] && depth <= MAX_POLICY_JSON_DEPTH
    ensures ItemsFit(items, depth) <==> Fits(items[0], depth + 1) && ItemsFit(items[1..], depth)
  {
    var rest := items[1..];
    if Fits(items[0], depth + 1) && ItemsFit(rest, depth) {
      forall i | 0 <= i < |items|
        ensures DistinctKeys(items[i])
      {
        if i > 0 { assert items[i] == rest[i - 1]; }
      }
    }
  }

  /** On the tokens of a document followed by anything, the scan succeeds exactly when the nesting stays
      within the limit and all keys are distinct, and then it leaves exactly what follows. */
  lemma {:induction false} ScanDocument(tree: Tree, rest: seq<Token>, depth: nat)
    ensures Scan(Tokens(tree) + rest, depth) == if Fits(tree, depth) then Some(rest) else None
    decreases tree, 1
  {
    var tokens := Tokens(tree) + rest;
    match tree
    case ArrayTree(items) =>
      assert tokens[1..] == ItemTokens(items) + [CloseArray] + rest;
      if depth <= MAX_POLICY_JSON_DEPTH {
        ScanItemsDocument(items, rest, depth);
      }
    case ObjectTree(fields) =>
      assert tokens[1..] == FieldTokens(fields) + [CloseObject] + rest;
      if depth <= MAX_POLICY_JSON_DEPTH {
        ScanFieldsDocument(fields, {}, rest, depth);
      }
    case _ =>
      assert tokens[1..] == rest;
  }

  lemma {:induction false} TokensStart(tree: Tree)
    ensures Tokens(tree) != [] && !Closes(Tokens(tree)[0])
  {
    match tree
    case ArrayTree(items) =>
    case ObjectTree(fields) =>
    case _ =>
  }

  lemma {:induction false} ScanItemsDocument(items: seq<Tree>, rest: seq<Token>, depth: nat)
    requires depth <= MAX_POLICY_JSON_DEPTH
    ensures ScanItems(ItemTokens(items) + [CloseArray] + rest, depth) ==
            if ItemsFit(items, depth) then Some(rest) else None
    decreases items, 0
  {
    var tokens := ItemTokens(items) + [CloseArray] + rest;
    if items == [] {
      assert tokens[1..] == rest;
    } else {
      var more := ItemTokens(items[1..]) + [CloseArray] + rest;
      TokensStart(items[0]);
      assert tokens == Tokens(items[0]) + more;
      ScanDocument(items[0], more, depth + 1);
      ScanItemsDocument(items[1..], rest, depth);
      ItemsFitStep(items, depth);
    }
  }

  lemma {:induction false} ScanFieldsDocument(fields: seq<Field>, keys: set<string>, rest: seq<Token>, depth: nat)
    requires depth <= MAX_POLICY_JSON_DEPTH
    ensures ScanFields(FieldTokens(fields) + [CloseObject] + rest, keys, depth)
            == if FieldsFit(fields, keys, depth) then Some(rest) else None
    decreases fields, 0
  {
    var tokens := FieldTokens(fields) + [CloseObject] + rest;
    if fields == [] {
      assert tokens[1..] == rest;
    } else {
      var more := FieldTokens(fields[1..]) + [CloseObject] + rest;
      assert tokens[0] == Str(fields[0].key) && tokens[1..] == Tokens(fields[0].value) + more;
      ScanDocument(fields[0].value, more, depth + 1);
      ScanFieldsDocument(fields[1..], keys + {Normalize(fields[0].key)}, rest, depth);
      FieldsFitStep(fields, keys, depth);
    }
  }

  // ----- The scan accepts nothing but documents

  /** Whatever the scan accepts, of any tokens at all, is one document within the limits. */
  lemma {:induction false} ScannedIsDocument(tokens: seq<Token>, depth: nat) returns (tree: Tree)
    requires Scan(tokens, depth).Some?
    ensures tokens == Tokens(tree) + Scan(tokens, depth).value && Fits(tree, depth)
    decreases |tokens|, 0
  {
    var rest := Scan(tokens, depth).value;
    match tokens[0]
    case OpenObject =>
      var fields := ScannedFields(tokens[1..], {}, depth);
      tree := ObjectTree(fields);
    case OpenArray =>
      var items := ScannedItems(tokens[1..], depth);
      tree := ArrayTree(items);
    case Str(text) => tree := StrTree(text);
    case Num(literal) => tree := NumTree(literal);
    case Bool(value) => tree := BoolTree(value);
    case Null => tree := NullTree;
    assert tokens == [tokens[0]] + tokens[1..];
  }

  lemma FieldTokensCons(key: string, value: Tree, more: seq<Field>)
    ensures FieldTokens([Field(key, value)] + more) == [Str(key)] + (Tokens(value) + FieldTokens(more))
  {
    assert ([Field(key, value)] + more)[1..] == more;
  }

  lemma Regroup(tokens: seq<Token>, value: seq<Token>, more: seq<Token>, close: seq<Token>, rest: seq<Token>)
    requires tokens != [] && tokens[1..] == value + (more + close + rest)
    ensures tokens == [tokens[0]] + (value + more) + close + rest
  {
    assert tokens == [tokens[0]] + tokens[1..];
  }

  lemma {:induction false} ScannedFields(tokens: seq<Token>, keys: set<string>, depth: nat) returns (fields: seq<Field>)
    requires depth <= MAX_POLICY_JSON_DEPTH && ScanFields(tokens, keys, depth).Some?
    ensures tokens == FieldTokens(fields) + [CloseObject] + ScanFields(tokens, keys, depth).value
    ensures FieldsFit(fields, keys, depth)
    decreases |tokens|, 1
  {
    assert tokens == [tokens[0]] + tokens[1..];
    if Closes(tokens[0]) {
      fields := [];
    } else {
      var key := tokens[0].text;
      var value := ScannedIsDocument(tokens[1..], depth + 1);
      var more := ScannedFields(Scan(tokens[1..], depth + 1).value, keys + {Normalize(key)}, depth);
      fields := [Field(key, value)] + more;
      assert fields[1..] == more;
      FieldTokensCons(key, value, more);
      Regroup(tokens, Tokens(value), FieldTokens(more), [CloseObject], ScanFields(tokens, keys, depth).value);
      FieldsFitStep(fields, keys, depth);
    }
  }

  lemma {:induction false} ScannedItems(tokens: seq<Token>, depth: nat) returns (items: seq<Tree>)
    requires depth <= MAX_POLICY_JSON_DEPTH && ScanItems(tokens, depth).Some?
    ensures tokens == ItemTokens(items) + [CloseArray] + ScanItems(tokens, depth).value
    ensures ItemsFit(items, depth)
    decreases |tokens|, 1
  {
    if Closes(tokens[0]) {
      assert tokens == [tokens[0]] + tokens[1..];
      items := [];
    } else {
      var item := ScannedIsDocument(tokens, depth + 1);
      var more := ScannedItems(Scan(tokens, depth + 1).value, depth);
      items := [item] + more;
      assert items[1..] == more;
      ItemsFitStep(items, depth);
    }
  }

  /** The duplicate-key check accepts a body exactly when it is one document, nested at most 128 levels,
      with distinct keys throughout. */
  lemma AcceptedBodies(tokens: seq<Token>)
    ensures Scan(tokens, 0) == Some([]) <==> exists tree :: Tokens(tree) == tokens && Fits(tree, 0)
  {
    if Scan(tokens, 0) == Some([]) {
      var tree := ScannedIsDocument(tokens, 0);
      assert Tokens(tree) + [] == Tokens(tree);
    }
    if tree :| Tokens(tree) == tokens && Fits(tree, 0) {
      ScanDocument(tree, [], 0);
      assert Tokens(tree) + [] == Tokens(tree);
    }
  }
}
