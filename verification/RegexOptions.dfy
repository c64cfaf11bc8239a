/** `_bson_append_regex_options_sorted`: the options of a regular expression, each once and in order. */
module RegexOptions {
  import opened Bytes

  const REGEX_OPTIONS: CString := [0x69, 0x6c, 0x6d, 0x73, 0x75, 0x78]

  function SortedOptions(options: seq<byte>, among: CString): (sorted: CString)
    ensures |sorted| <= |among|
  {
    if among == [] then []
    else (if among[0] in options then [among[0]] else []) + SortedOptions(options, among[1..])
  }

  /** `strchr`. */
  method Contains(options: CString, c: byte) returns (found: bool)
    ensures found <==> c in options
  {
    for i := 0 to |options|
      invariant c !in options[..i]
    {
      if options[i] == c {
        return true;
      }
    }
    return false;
  }

  method SortOptions(options: CString) returns (sorted: CString)
    ensures sorted == SortedOptions(options, REGEX_OPTIONS)
  {
    hide SortedOptions;
    sorted := [];
    var i := 0;
    while i < |REGEX_OPTIONS|
      invariant i <= |REGEX_OPTIONS|
      invariant sorted + SortedOptions(options, REGEX_OPTIONS[i..]) == SortedOptions(options, REGEX_OPTIONS)
    {
      var found := Contains(options, REGEX_OPTIONS[i]);
      SortNext(options, REGEX_OPTIONS, i, sorted);
      if found {
        sorted := sorted + [REGEX_OPTIONS[i]];
      }
      i := i + 1;
    }
    NoneLeft(options, REGEX_OPTIONS, sorted);
  }

  lemma SortNext(options: seq<byte>, among: CString, i: nat, sorted: CString)
    requires i < |among|
    ensures sorted + SortedOptions(options, among[i..])
         == (if among[i] in options then sorted + [among[i]] else sorted) + SortedOptions(options, among[i + 1..])
  {
    assert among[i..][1..] == among[i + 1..];
  }

  lemma NoneLeft(options: seq<byte>, among: CString, sorted: CString)
    ensures sorted + SortedOptions(options, among[|among|..]) == sorted
  {}

  /** Sorting again changes nothing, and loses no option that is one. */
  lemma {:induction false} SortedAgain(options: seq<byte>, among: CString)
    requires forall i, j | 0 <= i < j < |among| :: among[i] != among[j]
    ensures forall c :: c in SortedOptions(options, among) <==> c in among && c in options
    ensures SortedOptions(SortedOptions(options, among), among) == SortedOptions(options, among)
  {
    if among != [] {
      SortedAgain(options, among[1..]);
      SameSort(SortedOptions(options, among), SortedOptions(options, among[1..]), among[1..]);
      assert among == [among[0]] + among[1..];
      assert among[0] !in among[1..];
    }
  }

  lemma {:induction false} SameSort(a: seq<byte>, b: seq<byte>, among: CString)
    requires forall c | c in among :: c in a <==> c in b
    ensures SortedOptions(a, among) == SortedOptions(b, among)
  {
    if among != [] {
      SameSort(a, b, among[1..]);
    }
  }

  lemma {:induction false} KeepsOrder(options: seq<byte>, among: CString)
    requires forall i, j | 0 <= i < j < |among| :: among[i] < among[j]
    ensures var s := SortedOptions(options, among);
            (forall c | c in s :: c in among) && forall i, j | 0 <= i < j < |s| :: s[i] < s[j]
  {
    if among != [] {
      KeepsOrder(options, among[1..]);
      assert among == [among[0]] + among[1..];
      var rest := SortedOptions(options, among[1..]);
      forall j | 0 <= j < |rest| ensures among[0] < rest[j] {
        assert rest[j] in rest && rest[j] in among[1..];
        var k :| 0 <= k < |among[1..]| && among[1..][k] == rest[j];
        assert among[k + 1] == rest[j];
      }
    }
  }

  /** Of all options only i, l, m, s, u and x are kept, each once and in the order of the alphabet. */
  lemma KeepsKnownInOrder(options: seq<byte>)
    ensures var s := SortedOptions(options, REGEX_OPTIONS);
            && (forall c: byte :: c in s <==> c in options && c as char in {'i', 'l', 'm', 's', 'u', 'x'})
            && (forall i, j | 0 <= i < j < |s| :: s[i] < s[j])
  {
    hide SortedOptions;
    KeepsOrder(options, REGEX_OPTIONS);
    SortedAgain(options, REGEX_OPTIONS);
  }
}
