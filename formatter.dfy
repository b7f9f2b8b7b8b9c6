/** The reply texts: the canned greeting, farewell and no-match messages, and
    the numbered listing of the best matches. */
module Formatter {
  import opened Wrappers
  import opened Text
  import opened Catalog

  const GreetingText: string :=
    "\U{1F44B} Hello! Welcome to our HappyCore Systems.\n"
    + "You can ask me anything like:\n"
    + "- Suggest me a gaming laptop under \U{20B9}60000\n"
    + "- I want a Dell laptop with Windows 11\n"
    + "- Show me laptops with Ryzen 5 processor\n"
    + "Go ahead, ask your question! \U{1F4AC}"

  const FarewellText: string :=
    "\U{1F64F} Thank you for visiting!\n"
    + "I hope my recommendations help you choose the best laptop.\n"

  const NoMatchText: string :=
    "\U{1F615} Sorry, no laptops match your criteria."
    + " Please try different filters."

  const Header: string := "\U{1F50D} Here are the best matching laptops:\n"

  /** The four kinds of reply open with four different emoji, so no reply
      of one kind can be mistaken for another. */
  lemma RepliesOpenApart()
    ensures GreetingText != [] && GreetingText[0] == '\U{1F44B}'
    ensures FarewellText != [] && FarewellText[0] == '\U{1F64F}'
    ensures NoMatchText != [] && NoMatchText[0] == '\U{1F615}'
    ensures Header != [] && Header[0] == '\U{1F50D}'
  {
    var hello := "\U{1F44B} Hello! Welcome to our HappyCore Systems.\n";
    assert hello[0] == '\U{1F44B}';
    assert GreetingText[..|hello|] == hello;
  }

  /** A cell as an f-string shows it: a missing cell (NaN) prints as "nan". */
  function CellText(cell: Option<string>): string
  {
    match cell
    case Some(v) => v
    case None => "nan"
  }

  /** The rank that opens an entry: "n. ". */
  function RankLabel(n: nat): string
  {
    NatToDecimal(n) + ". "
  }

  /** The pieces of the two lines that list one record under rank `n`:
      the f-string of the handler, field by field. */
  function EntryParts(n: nat, r: Record): seq<string>
  {
    [ RankLabel(n), r.modelName, " (", CellText(r.brand), ") - \U{20B9}", IntToDecimal(r.price), "\n",
      "   Processor: ", CellText(r.processorName), ", RAM: ", IntToDecimal(r.ramGb), "GB, SSD: ",
      IntToDecimal(r.ssdGb), "GB, ",
      "OS: ", CellText(r.operatingSystem), "\n" ]
  }

  /** The two lines that list one record under rank `n`. */
  function Entry(n: nat, r: Record): string
  {
    Concat(EntryParts(n, r))
  }

  /** The entries of `rs`, ranked consecutively from `first`. */
  function Entries(rs: seq<Record>, first: nat): seq<string>
  {
    seq(|rs|, i requires 0 <= i < |rs| => Entry(first + i, rs[i]))
  }

  /** The concatenation of a list of texts. */
  function Concat(parts: seq<string>): string
  {
    if parts == [] then "" else Concat(parts[..|parts| - 1]) + parts[|parts| - 1]
  }

  /** Concatenating two lists of texts is concatenating their concatenations. */
  lemma {:induction false} ConcatAppend(xs: seq<string>, ys: seq<string>)
    ensures Concat(xs + ys) == Concat(xs) + Concat(ys)
  {
    if ys == [] {
      assert xs + ys == xs;
    } else {
      var init := ys[..|ys| - 1];
      ConcatAppend(xs, init);
      assert (xs + ys)[..|xs + ys| - 1] == xs + init;
    }
  }

  lemma ConcatSnoc(xs: seq<string>, x: string)
    ensures Concat(xs + [x]) == Concat(xs) + x
  {
    assert (xs + [x])[..|xs|] == xs;
  }

  lemma EntriesExtend(rs: seq<Record>, first: nat, i: nat)
    requires i < |rs|
    ensures Entries(rs[..i + 1], first) == Entries(rs[..i], first) + [Entry(first + i, rs[i])]
  {
  }

  /** The listing of the records `rs`, ranked from 1. */
  function Listing(rs: seq<Record>): string
  {
    Concat(Entries(rs, 1))
  }

  /** Record `rs[i]` is listed under rank `i + 1`, after the entries of the
      records before it and before those of the records after it, which
      continue from rank `i + 2`. */
  lemma ListingNumbersConsecutively(rs: seq<Record>, i: nat)
    requires i < |rs|
    ensures Listing(rs) == Listing(rs[..i]) + Entry(i + 1, rs[i]) + Concat(Entries(rs[i + 1..], i + 2))
  {
    var before, after := Entries(rs[..i], 1), Entries(rs[i + 1..], i + 2);
    assert Entries(rs, 1) == before + [Entry(i + 1, rs[i])] + after;
    ConcatAppend(before + [Entry(i + 1, rs[i])], after);
    ConcatAppend(before, [Entry(i + 1, rs[i])]);
    assert Concat([Entry(i + 1, rs[i])]) == Entry(i + 1, rs[i]) by {
      assert [Entry(i + 1, rs[i])][..0] == [];
    }
  }

  /** The header followed by the listing, as one concatenation of texts. */
  lemma HeaderThenListing(top: seq<Record>)
    ensures Concat([Header] + Entries(top, 1)) == Header + Listing(top)
  {
    ConcatAppend([Header], Entries(top, 1));
    assert Concat([Header]) == Header by {
      assert [Header][..0] == [];
    }
  }

  /** The enumerate loop that appends one entry per listed record to the
      header, followed by `response.strip()`. */
  method Render(top: seq<Record>) returns (response: string)
    ensures response == Strip(Header + Listing(top))
  {
    response := Header;
    assert Concat([Header]) == Header by {
      assert [Header][..0] == [];
    }
    assert [Header] + Entries(top[..0], 1) == [Header];
    for i := 0 to |top|
      invariant response == Concat([Header] + Entries(top[..i], 1))
    {
      ghost var parts := [Header] + Entries(top[..i], 1);
      var entry := Entry(i + 1, top[i]);
      EntriesExtend(top, 1, i);
      assert [Header] + Entries(top[..i + 1], 1) == parts + [entry];
      ConcatSnoc(parts, entry);
      response := response + entry;
    }
    assert top[..|top|] == top;
    HeaderThenListing(top);
    response := Strip(response);
  }

  lemma EntryStartsWithRank(n: nat, r: Record)
    ensures |Entry(n, r)| >= |RankLabel(n)| && Entry(n, r)[..|RankLabel(n)|] == RankLabel(n)
  {
    var parts := EntryParts(n, r);
    ConcatAppend([parts[0]], parts[1..]);
    assert parts == [parts[0]] + parts[1..];
    assert Concat([parts[0]]) == parts[0] by {
      assert [parts[0]][..0] == [];
    }
  }

  /** A non-empty listing opens with rank 1. */
  lemma ListingStartsWithRankOne(top: seq<Record>)
    requires top != []
    ensures |Listing(top)| >= 3 && Listing(top)[..3] == "1. "
  {
    ListingNumbersConsecutively(top, 0);
    assert Entries(top[..0], 1) == [];
    var rest := Concat(Entries(top[1..], 2));
    assert Listing(top) == Entry(1, top[0]) + rest;
    assert RankLabel(1) == "1. ";
    EntryStartsWithRank(1, top[0]);
  }

  /** A listing reply starts with the header followed by rank 1, and loses
      only trailing whitespace to the final strip. */
  lemma ListingReplyShape(top: seq<Record>)
    requires top != []
    ensures Strip(Header + Listing(top)) == StripRight(Header + Listing(top))
    ensures |Strip(Header + Listing(top))| >= |Header| + 2
    ensures Strip(Header + Listing(top))[..|Header| + 2] == Header + "1."
    ensures Strip(Header + Listing(top))[0] == Header[0]
  {
    var listing := Listing(top);
    ListingStartsWithRankOne(top);
    var s := Header + listing;
    var k := |Header| + 1;
    assert s[..k + 1] == Header + listing[..2];
    assert listing[..2] == "1.";
    assert !IsSpace(s[0]) && s[k] == '.';
    StripOfNonSpaceStart(s);
    StripRightKeepsPrefix(s, k);
    assert Strip(s)[..k + 1][0] == Strip(s)[0];
  }
}
