/**
 Failure-compatible result types shared by every part of the model.

 The converter has no partial-success mode: any exception aborts the whole
 conversion.  Each Python exception the converter can raise becomes one
 `Error` constructor, named after the situation that raises it.
 */
module Results {

  datatype Option<+T> = None | Some(value: T)

  datatype Error =
    | MissingLine          // IndexError: `lines[k+1]` past the end of the file
    | MissingToken         // IndexError: `split()[i]` on a line with too few tokens
    | NotAnInteger         // ValueError from `int(...)`
    | NotAFloat            // ValueError from the float conversion of a whole line
    | MissingColumn        // IndexError: a marker's column offset past the parsed floats
    | UnterminatedValues   // IndexError: a multi-line block runs off the end of the file
    | PendingNotSet        // TypeError: `extend(0)` with a Betas/Lambdas buffer never filled
    | UnknownBundle        // KeyError: `xs_lib[L][m][n]` outside the library
    | UnknownQuantity      // KeyError: quantity name missing from a bundle
    | ShortList            // IndexError in the derived-quantity pass
    | NonFiniteEnergy      // FISSE divided by a zero FISSXS (numpy would store inf)
    | NoUniverses          // ZeroDivisionError: Serpent table with no universe or no burnup
    | MissingArray         // KeyError: Serpent results without a needed array
    | MissingRow           // IndexError: Serpent array with too few rows
    | WrongFieldCount      // ValueError: a FILES entry that is neither 2 nor 3 tokens
    | UnknownFormat        // the format tag names no known code
    | NoReference          // UnboundLocalError: openmc entry with no reference token ever read
    | NoMaterials          // NameError: no [MAT] section before it is needed
    | UnknownMaterial      // KeyError: a [BRANCH] record naming an undeclared material
    | NoFiles              // NameError: branch resolution with no FILES section
    | UnknownFile          // KeyError: branch record naming a file index not declared
    | NoOutputFile         // writing the document with no [TITLE] (closed input file)
    | Unreadable           // an external reader could not produce its data

  datatype Result<+T> = Ok(value: T) | Err(error: Error) {

    predicate IsFailure() {
      Err?
    }

    function PropagateFailure<U>(): Result<U>
      requires Err?
    {
      Err(error)
    }

    function Extract(): T
      requires Ok?
    {
      value
    }
  }

  /** Turns an optional value into a result, failing with `e` when it is absent. */
  function Need<T>(o: Option<T>, e: Error): (r: Result<T>)
    ensures r.Ok? <==> o.Some?
    ensures r.Ok? ==> r.value == o.value
    ensures r.Err? ==> r.error == e
  {
    match o
    case Some(v) => Ok(v)
    case None => Err(e)
  }
}
