/** The library's album grid: albums laid out five to a row. */
module AlbumGridView {
  import opened Seqs
  import AlbumStore

  type Album = AlbumStore.Album

  const ColumnCount: nat := 5

  /** The `rows` reduce: album `index` goes to row `floor(index / 5)`, and
      that row is opened when it does not exist yet. */
  method Rows(albums: seq<Album>) returns (rows: seq<seq<Album>>)
    ensures rows == Chunk(albums, ColumnCount)
    ensures Flatten(rows) == albums
    ensures |rows| == (|albums| + ColumnCount - 1) / ColumnCount
    ensures albums == [] ==> rows == []
    ensures forall r :: 0 <= r < |rows| ==> 1 <= |rows[r]| <= ColumnCount
    ensures forall i :: 0 <= i < |albums| ==>
              i / ColumnCount < |rows| && i % ColumnCount < |rows[i / ColumnCount]| &&
              rows[i / ColumnCount][i % ColumnCount] == albums[i]
  {
    rows := [];
    var index := 0;
    while index < |albums|
      invariant 0 <= index <= |albums|
      invariant rows == Chunk(albums[..index], ColumnCount)
    {
      var rowIndex := index / ColumnCount;
      ChunkCount(albums[..index], ColumnCount);
      ChunkSnoc(albums[..index], albums[index], ColumnCount);
      RowOfNext(index);
      ghost var before := rows;
      assert |albums[..index]| == index;
      assert |before| == (index + ColumnCount - 1) / ColumnCount;
      assert index % ColumnCount == 0 ==> |before| == rowIndex;
      assert index % ColumnCount != 0 ==> |before| == rowIndex + 1;
      if !(rowIndex < |rows|) {
        rows := rows + [[]];
      }
      assert index % ColumnCount == 0 ==> rows == before + [[]] && rows[rowIndex] == [];
      rows := rows[rowIndex := rows[rowIndex] + [albums[index]]];
      if index % ColumnCount == 0 {
        assert [] + [albums[index]] == [albums[index]];
        assert |rows| == |before| + 1 && rows[|before|] == [albums[index]];
        assert rows[..|before|] == before;
        assert rows == rows[..|before|] + [rows[|before|]];
        assert rows == before + [[albums[index]]];
      } else {
        assert rows == before[..|before| - 1] + [before[|before| - 1] + [albums[index]]];
      }
      assert albums[..index + 1] == albums[..index] + [albums[index]];
      index := index + 1;
    }
    assert albums[..index] == albums;
    ChunkFlatten(albums, ColumnCount);
    ChunkCount(albums, ColumnCount);
    ChunkEmpty(albums, ColumnCount);
    ChunkRowSizes(albums, ColumnCount);
    forall i | 0 <= i < |albums|
      ensures i / ColumnCount < |rows| && i % ColumnCount < |rows[i / ColumnCount]|
      ensures rows[i / ColumnCount][i % ColumnCount] == albums[i]
    {
      ChunkAt(albums, ColumnCount, i);
    }
  }

  /** The row album `index` goes to is the last existing row, or a new one
      exactly when `index` starts a row. */
  lemma RowOfNext(index: nat)
    ensures index % ColumnCount == 0 ==> (index + ColumnCount - 1) / ColumnCount == index / ColumnCount
    ensures index % ColumnCount != 0 ==> (index + ColumnCount - 1) / ColumnCount == index / ColumnCount + 1
  {
    var q := index / ColumnCount;
    var r := index % ColumnCount;
    if r == 0 {
      DivModUnique(index + ColumnCount - 1, ColumnCount, q, ColumnCount - 1);
    } else {
      DivModUnique(index + ColumnCount - 1, ColumnCount, q + 1, r - 1);
    }
  }
}
