/** The portfolio reader: `Letter`, `Picture`, `Movie` and `Portfolio`
    (index.js lines 239-315). `readElements` walks the portfolio in order and,
    by the class of each element, prints one line with `readLetter`,
    `readPicture` or `readMovie`; an element of any other class is passed over
    without a line. */
module Visitor {
  import opened Wrappers

  /** An element of a portfolio. `Other` stands for any object that is neither
      a `Letter`, a `Picture` nor a `Movie`. */
  datatype Item =
    | Letter(title: string, text: string)
    | Picture(title: string, size: int)
    | Movie(title: string, duration: int)
    | Other

  /** A printed line, with the number it reports kept as a number:
      `Лист: <title>, Розмір: <chars> символів`,
      `Картина: <title>, Розмір: <sizeKB> KB`,
      `Фільм: <title>, Тривалість: <minutes> хвилин`. */
  datatype Line =
    | LetterLine(title: string, chars: nat)
    | PictureLine(title: string, sizeKB: int)
    | MovieLine(title: string, minutes: int)

  /** `readLetter`: the letter's title and the length of its text. */
  function ReadLetter(letter: Item): (l: Line)
    requires letter.Letter?
    ensures l.LetterLine? && l.title == letter.title && l.chars == |letter.text|
  {
    LetterLine(letter.title, |letter.text|)
  }

  /** `readPicture`: the picture's title and its size in KB. */
  function ReadPicture(picture: Item): (l: Line)
    requires picture.Picture?
    ensures l.PictureLine? && l.title == picture.title && l.sizeKB == picture.size
  {
    PictureLine(picture.title, picture.size)
  }

  /** `readMovie`: the movie's title and its duration in minutes. */
  function ReadMovie(movie: Item): (l: Line)
    requires movie.Movie?
    ensures l.MovieLine? && l.title == movie.title && l.minutes == movie.duration
  {
    MovieLine(movie.title, movie.duration)
  }

  /** The line one element gets from the dispatch in `readElements`, or `None`
      for an element of no known class. A known element's line names that
      element and is of the element's own kind. */
  function Read(item: Item): (r: Option<Line>)
    ensures r.None? <==> item.Other?
    ensures r.Some? ==> r.value.title == item.title
    ensures r.Some? ==>
              (r.value.LetterLine? <==> item.Letter?) &&
              (r.value.PictureLine? <==> item.Picture?) &&
              (r.value.MovieLine? <==> item.Movie?)
  {
    match item
    case Letter(_, _) => Some(ReadLetter(item))
    case Picture(_, _) => Some(ReadPicture(item))
    case Movie(_, _) => Some(ReadMovie(item))
    case Other => None
  }

  /** Every line `readElements` prints for `items`, in order: at most one per
      element, and a known first element gives the first line. */
  function ReadAll(items: seq<Item>): (lines: seq<Line>)
    ensures |lines| <= |items|
    ensures items != [] && !items[0].Other? ==> lines != [] && Some(lines[0]) == Read(items[0])
  {
    if items == [] then []
    else
      match Read(items[0])
      case Some(l) => [l] + ReadAll(items[1..])
      case None => ReadAll(items[1..])
  }

  /** The lines for a portfolio are the lines for a prefix followed by the
      lines for the rest: elements are read in list order. */
  lemma {:induction false} ReadAllAppend(a: seq<Item>, b: seq<Item>)
    ensures ReadAll(a + b) == ReadAll(a) + ReadAll(b)
  {
    if a == [] {
      assert a + b == b;
    } else {
      assert (a + b)[0] == a[0];
      assert (a + b)[1..] == a[1..] + b;
      ReadAllAppend(a[1..], b);
    }
  }

  /** One line per element of a known class: the number of lines is the
      number of elements minus the number of unknown ones. */
  lemma {:induction false} ReadAllLength(items: seq<Item>)
    ensures |ReadAll(items)| == |items| - multiset(items)[Other]
  {
    if items != [] {
      assert items == [items[0]] + items[1..];
      ReadAllLength(items[1..]);
    }
  }

  /** Appending an element adds its line at the end, or nothing for an element
      of no known class. */
  lemma ReadAllSnoc(items: seq<Item>, x: Item)
    ensures ReadAll(items + [x]) == ReadAll(items) + (if x.Other? then [] else [Read(x).value])
  {
    ReadAllAppend(items, [x]);
    assert [x][1..] == [];
  }

  /** A portfolio without unknown elements gets exactly one line per element,
      the `i`-th line being the `i`-th element's. */
  lemma {:induction false} ReadAllKnown(items: seq<Item>)
    requires forall i :: 0 <= i < |items| ==> !items[i].Other?
    ensures |ReadAll(items)| == |items|
    ensures forall i :: 0 <= i < |items| ==> Read(items[i]) == Some(ReadAll(items)[i])
  {
    if items != [] {
      ReadAllKnown(items[1..]);
      assert ReadAll(items) == [Read(items[0]).value] + ReadAll(items[1..]);
      forall i | 0 <= i < |items|
        ensures Read(items[i]) == Some(ReadAll(items)[i])
      {
        if i > 0 {
          assert items[i] == items[1..][i - 1];
        }
      }
    }
  }

  /** A `Portfolio` object: an ordered list of elements of any class. */
  class Portfolio {
    var elements: seq<Item>

    constructor ()
      ensures elements == []
    {
      elements := [];
    }

    /** `addElement`: push onto the end of the list. */
    method AddElement(element: Item)
      modifies this
      ensures elements == old(elements) + [element]
    {
      elements := elements + [element];
    }

    /** `readElements`: for each element in turn, test its class and print the
        matching line; an element of no known class prints nothing. */
    method ReadElements() returns (lines: seq<Line>)
      ensures lines == ReadAll(elements)
      ensures |lines| == |elements| - multiset(elements)[Other]
    {
      lines := [];
      for i := 0 to |elements|
        invariant lines == ReadAll(elements[..i])
      {
        var element := elements[i];
        ReadAllSnoc(elements[..i], element);
        assert elements[..i + 1] == elements[..i] + [element];
        if element.Letter? {
          lines := lines + [ReadLetter(element)];
        } else if element.Picture? {
          lines := lines + [ReadPicture(element)];
        } else if element.Movie? {
          lines := lines + [ReadMovie(element)];
        }
      }
      assert elements[..|elements|] == elements;
      ReadAllLength(elements);
    }
  }
}
