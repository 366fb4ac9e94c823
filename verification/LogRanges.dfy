/** Paging over block ranges (frontend/src/infrastructure/blockchain/log-ranges.ts). */
module LogRanges {
  import opened Wrappers

  const MAX_LOG_BLOCKS := 10_000

  datatype BlockRange = BlockRange(fromBlock: int, toBlock: int)
  {
    predicate Contains(block: int) {
      fromBlock <= block <= toBlock
    }
  }

  function Min(a: int, b: int): int {
    if a < b then a else b
  }

  function Ranges(fromBlock: int, toBlock: int): (ranges: seq<BlockRange>)
    decreases toBlock - fromBlock
  {
    if toBlock < fromBlock then []
    else
      [BlockRange(fromBlock, Min(fromBlock + MAX_LOG_BLOCKS - 1, toBlock))] +
      Ranges(fromBlock + MAX_LOG_BLOCKS, toBlock)
  }

  /** Ascending, gapless, disjoint ranges of at most 10,000 blocks that cover exactly the inclusive interval. */
  ghost predicate Tiles(ranges: seq<BlockRange>, fromBlock: int, toBlock: int) {
    && (forall i :: 0 <= i < |ranges| ==>
        ranges[i].fromBlock <= ranges[i].toBlock < ranges[i].fromBlock + MAX_LOG_BLOCKS)
    && (forall i, j :: 0 <= i < j < |ranges| ==> ranges[i].toBlock < ranges[j].fromBlock)
    && (forall block: int :: Covered(ranges, block) <==> fromBlock <= block <= toBlock)
  }

  ghost predicate Covered(ranges: seq<BlockRange>, block: int) {
    exists i :: 0 <= i < |ranges| && ranges[i].Contains(block)
  }

  lemma {:induction false} RangesTile(fromBlock: int, toBlock: int)
    ensures Tiles(Ranges(fromBlock, toBlock), fromBlock, toBlock)
    decreases toBlock - fromBlock
  {
    if fromBlock <= toBlock {
      var ranges, next := Ranges(fromBlock, toBlock), fromBlock + MAX_LOG_BLOCKS;
      var rest := Ranges(next, toBlock);
      RangesTile(next, toBlock);
      forall i, j | 0 <= i < j < |ranges| ensures ranges[i].toBlock < ranges[j].fromBlock {
        assert rest[j - 1].Contains(rest[j - 1].fromBlock);
        assert Covered(rest, rest[j - 1].fromBlock);
      }
      forall block: int ensures Covered(ranges, block) <==> fromBlock <= block <= toBlock {
        if next <= block <= toBlock {
          assert Covered(rest, block);
          var i :| 0 <= i < |rest| && rest[i].Contains(block);
          assert ranges[i + 1].Contains(block);
        } else if fromBlock <= block <= toBlock {
          assert ranges[0].Contains(block);
        }
        if i :| 1 <= i < |ranges| && ranges[i].Contains(block) {
          assert rest[i - 1].Contains(block);
          assert Covered(rest, block);
        }
      }
    }
  }

  method BlockRanges(fromBlock: int, toBlock: int) returns (ranges: seq<BlockRange>)
    ensures ranges == Ranges(fromBlock, toBlock)
    ensures Tiles(ranges, fromBlock, toBlock)
  {
    RangesTile(fromBlock, toBlock);
    if toBlock < fromBlock {
      return [];
    }
    ranges := [];
    var start := fromBlock;
    while start <= toBlock
      invariant ranges + Ranges(start, toBlock) == Ranges(fromBlock, toBlock)
    {
      var range := BlockRange(start, if start + MAX_LOG_BLOCKS - 1 < toBlock then start + MAX_LOG_BLOCKS - 1
          else toBlock);
      assert ranges + Ranges(start, toBlock) == ranges + [range] + Ranges(start + MAX_LOG_BLOCKS, toBlock);
      ranges := ranges + [range];
      start := start + MAX_LOG_BLOCKS;
    }
  }

  /** All pages one after the other, or nothing if one cannot be loaded. */
  function Pages<T>(ranges: seq<BlockRange>, load: BlockRange -> Option<seq<T>>): Option<seq<T>> {
    if ranges == [] then Some([])
    else
      match load(ranges[0])
      case None => None
      case Some(page) => Prepend(page, Pages(ranges[1..], load))
  }

  function Prepend<T>(items: seq<T>, rest: Option<seq<T>>): (r: Option<seq<T>>)
    ensures items == [] ==> r == rest
  {
    if rest.None? then None
    else
      assert items == [] ==> items + rest.value == rest.value;
      Some(items + rest.value)
  }

  lemma PrependPrepend<T>(a: seq<T>, b: seq<T>, rest: Option<seq<T>>)
    ensures Prepend(a, Prepend(b, rest)) == Prepend(a + b, rest)
  {
    if rest.Some? {
      assert a + (b + rest.value) == a + b + rest.value;
    }
  }

  method LoadBlockRangePages<T>(fromBlock: int, toBlock: int, load: BlockRange -> Option<seq<T>>)
    returns (r: Option<seq<T>>)
    ensures r == Pages(Ranges(fromBlock, toBlock), load)
  {
    var result: seq<T> := [];
    var ranges := BlockRanges(fromBlock, toBlock);
    for i := 0 to |ranges|
      invariant Pages(ranges, load) == Prepend(result, Pages(ranges[i..], load))
    {
      var page := load(ranges[i]);
      assert ranges[i..][1..] == ranges[i + 1..];
      if page.None? {
        return None;
      }
      PrependPrepend(result, page.value, Pages(ranges[i + 1..], load));
      result := result + page.value;
    }
    assert Prepend(result, Some([])) == Some(result) by {
      assert result + [] == result;
    }
    return Some(result);
  }

  /** What a node answers for a range: the entries of its log inside the range, in order. */
  function Query<T>(log: seq<T>, blockOf: T -> int, range: BlockRange): (page: seq<T>) {
    if log == [] then []
    else (if range.Contains(blockOf(log[0])) then [log[0]] else []) + Query(log[1..], blockOf, range)
  }

  ghost predicate InBlockOrder<T>(log: seq<T>, blockOf: T -> int) {
    forall i, j :: 0 <= i < j < |log| ==> blockOf(log[i]) <= blockOf(log[j])
  }

  lemma {:induction false} QueryMembers<T>(log: seq<T>, blockOf: T -> int, range: BlockRange, entry: T)
    ensures entry in Query(log, blockOf, range) <==> entry in log && range.Contains(blockOf(entry))
  {
    if log != [] {
      QueryMembers(log[1..], blockOf, range, entry);
    }
  }

  /** Nothing is found in a range behind which the log starts. */
  lemma {:induction false} QueryBefore<T>(log: seq<T>, blockOf: T -> int, range: BlockRange)
    requires forall i :: 0 <= i < |log| ==> blockOf(log[i]) > range.toBlock
    ensures Query(log, blockOf, range) == []
  {
    if log != [] {
      QueryBefore(log[1..], blockOf, range);
    }
  }

  lemma {:induction false} QuerySplits<T>(log: seq<T>, blockOf: T -> int, fromBlock: int, middle: int, toBlock: int)
    requires InBlockOrder(log, blockOf) && fromBlock <= middle + 1 && middle <= toBlock
    ensures Query(log, blockOf, BlockRange(fromBlock, middle)) + Query(log, blockOf, BlockRange(middle + 1, toBlock))
         == Query(log, blockOf, BlockRange(fromBlock, toBlock))
  {
    if log != [] {
      QuerySplits(log[1..], blockOf, fromBlock, middle, toBlock);
      if blockOf(log[0]) > middle {
        assert forall i :: 0 < i < |log| ==> blockOf(log[0]) <= blockOf(log[i]);
        QueryBefore(log, blockOf, BlockRange(fromBlock, middle));
        QueryBefore(log[1..], blockOf, BlockRange(fromBlock, middle));
      }
    }
  }

  lemma {:induction false} QueryNowhere<T>(log: seq<T>, blockOf: T -> int, range: BlockRange)
    requires range.toBlock < range.fromBlock
    ensures Query(log, blockOf, range) == []
  {
    if log != [] {
      QueryNowhere(log[1..], blockOf, range);
    }
  }

  /** Loading page by page is the same as querying the whole interval at once. */
  lemma {:induction false} PagesAreOneQuery<T>(log: seq<T>, blockOf: T -> int, fromBlock: int, toBlock: int,
          load: BlockRange -> Option<seq<T>>)
    requires InBlockOrder(log, blockOf)
    requires forall range: BlockRange :: load(range) == Some(Query(log, blockOf, range))
    ensures Pages(Ranges(fromBlock, toBlock), load) == Some(Query(log, blockOf, BlockRange(fromBlock, toBlock)))
    decreases toBlock - fromBlock
  {
    if toBlock < fromBlock {
      QueryNowhere(log, blockOf, BlockRange(fromBlock, toBlock));
    } else {
      var next := fromBlock + MAX_LOG_BLOCKS;
      var ranges := Ranges(fromBlock, toBlock);
      PagesAreOneQuery(log, blockOf, next, toBlock, load);
      assert ranges[1..] == Ranges(next, toBlock);
      if next <= toBlock {
        QuerySplits(log, blockOf, fromBlock, next - 1, toBlock);
      } else {
        QueryNowhere(log, blockOf, BlockRange(next, toBlock));
        assert load(ranges[0]).value + [] == load(ranges[0]).value;
      }
    }
  }
}
