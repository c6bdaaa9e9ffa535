/**
  Accent removal by table lookup. A character found in the accented table is replaced by the
  character at the same position of the plain table, the position being that of its first
  occurrence; any other character is copied.

  The lookup is stated for any pair of tables whose plain table is at least as long as the
  accented one (AlignedTable). SourceTable holds the two tables of the source, and
  SourceTableAligned proves that it is such a pair.
*/
module Accents {

  /** AreAccentedChars and NonAccentedChars. */
  datatype AccentTable = AccentTable(accented: string, plain: string)

  /** Tables whose every accented position can be read in the plain table. */
  type AlignedTable = t: AccentTable | |t.plain| >= |t.accented| witness AccentTable("", "")

  const SourceTable: AccentTable := AccentTable(
    "äæǽöœüÄÜÖÀÁÂÃÄÅǺĀĂĄǍΑΆẢẠẦẪẨẬẰẮẴẲẶАàáâãåǻāăąǎªαάảạầấẫẩậằắẵẳặаБбÇĆĈĊČçćĉċčДдÐĎĐΔðďđδÈÉÊËĒĔĖĘĚΕΈẼẺẸỀẾỄỂỆЕЭèéêëēĕėęěέεẽẻẹềếễểệеэФфĜĞĠĢΓГҐĝğġģγгґĤĦĥħ" +
    "ÌÍÎÏĨĪĬǏĮİΗΉΊΙΪỈỊИЫìíîïĩīĭǐįıηήίιϊỉịиыїĴĵĶΚКķκкĹĻĽĿŁΛЛĺļľŀłλлМмÑŃŅŇΝНñńņňŉνнÒÓÔÕŌŎǑŐƠØǾΟΌΩΏỎỌỒỐỖỔỘỜỚỠỞỢОòóôõōŏǒőơøǿºοόωώỏọồốỗổộờớỡởợоПпŔŖŘΡРŕŗřρрŚŜŞȘŠΣСśŝşșšſσςсȚŢŤŦτТțţťŧт" +
    "ÙÚÛŨŪŬŮŰŲƯǓǕǗǙǛŨỦỤỪỨỮỬỰУùúûũūŭůűųưǔǖǘǚǜυύϋủụừứữửựуÝŸŶΥΎΫỲỸỶỴЙýÿŷỳỹỷỵйŴŵŹŻŽΖЗźżžζзƒπβμ",
    "aaaoouAUOAAAAAAAAAAAAAAAAAAAAAAAAAaaaaaaaaaaaaaaaaaaaaaaaaaaBbCCCCCcccccDdDDDDddddEEEEEEEEEEEEEEEEEEEEEeeeeeeeeeeeeeeeeeeeeeFfGGGGGGGgggggggHHhh" +
    "IIIIIIIIIIIIIIIIIIIiiiiiiiiiiiiiiiiiiiiJjKKKkkkLLLLLLLlllllllMmNNNNNNnnnnnnnOOOOOOOOOOOOOOOOOOOOOOOOOOOOoooooooooooooooooooooooooooooPpRRRRRrrrrrSSSSSSSsssssssssTTTTTTttttt" +
    "UUUUUUUUUUUUUUUUUUUUUUUUuuuuuuuuuuuuuuuuuuuuuuuuuuYYYYYYYYYYYyyyyyyyyWwZZZZZzzzzzfpvm")

  /** Both tables of the source have 401 characters. */
  lemma SourceTableAligned()
    ensures |SourceTable.accented| == |SourceTable.plain| == 401
  {
  }

  /** String.IndexOf(char): the first position of c in s, or -1 when c does not occur. */
  function IndexOf(s: string, c: char): (r: int)
    ensures -1 <= r < |s|
    ensures r == -1 <==> c !in s
    ensures r >= 0 ==> s[r] == c && c !in s[..r]
  {
    if s == [] then -1
    else if s[0] == c then 0
    else
      var k := IndexOf(s[1..], c);
      assert k >= 0 ==> s[..k + 1] == [s[0]] + s[1..][..k];
      if k == -1 then -1 else k + 1
  }

  /** Two first occurrences of the same character are the same position. */
  lemma FirstOccurrenceUnique(s: string, c: char, i: nat, j: nat)
    requires i < |s| && j < |s| && s[i] == c && s[j] == c
    requires c !in s[..i] && c !in s[..j]
    ensures i == j
  {
  }

  /** The character the loop of RemoveAccents appends for c. */
  function Unaccent(table: AlignedTable, c: char): char {
    var index := IndexOf(table.accented, c);
    if index == -1 then c else table.plain[index]
  }

  /** A character outside the accented table is copied, and one inside it maps to the plain
      character at its first position, so a duplicated entry resolves to its first occurrence. */
  lemma UnaccentMeaning(table: AlignedTable, c: char)
    ensures c !in table.accented ==> Unaccent(table, c) == c
    ensures forall i :: 0 <= i < |table.accented| && table.accented[i] == c && c !in table.accented[..i] ==>
      Unaccent(table, c) == table.plain[i]
  {
    var index := IndexOf(table.accented, c);
    forall i | 0 <= i < |table.accented| && table.accented[i] == c && c !in table.accented[..i]
      ensures Unaccent(table, c) == table.plain[i]
    {
      FirstOccurrenceUnique(table.accented, c, i, index);
    }
  }

  /** The string RemoveAccents builds: one replaced character per input character. */
  function Unaccented(table: AlignedTable, s: string): (r: string)
    ensures |r| == |s|
    ensures forall k :: 0 <= k < |s| ==> r[k] == Unaccent(table, s[k])
  {
    if s == [] then [] else Unaccented(table, s[..|s| - 1]) + [Unaccent(table, s[|s| - 1])]
  }

  /** The replacement is per character, so it distributes over concatenation. */
  lemma UnaccentedAppend(table: AlignedTable, s: string, t: string)
    ensures Unaccented(table, s + t) == Unaccented(table, s) + Unaccented(table, t)
  {
  }

  /** A string with no accented-table character comes back unchanged. */
  lemma UnaccentedKeepsOtherText(table: AlignedTable, s: string)
    requires forall k :: 0 <= k < |s| ==> s[k] !in table.accented
    ensures Unaccented(table, s) == s
  {
    forall k | 0 <= k < |s|
      ensures Unaccented(table, s)[k] == s[k]
    {
      UnaccentMeaning(table, s[k]);
    }
  }

  method RemoveAccents(table: AlignedTable, s: string) returns (text: string)
    ensures text == Unaccented(table, s)
  {
    text := "";
    var i := 0;
    while i < |s|
      invariant 0 <= i <= |s|
      invariant text == Unaccented(table, s[..i])
    {
      var c := s[i];
      var index := IndexOf(table.accented, c);
      if index == -1 {
        text := text + [c];
      } else {
        text := text + [table.plain[index]];
      }
      assert s[..i + 1][..i] == s[..i];
      i := i + 1;
    }
    assert s[..i] == s;
  }
}
