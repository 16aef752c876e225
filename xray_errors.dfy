/** Errors raised while locating an emissivity table and building a band
    interpolator, and the Result type that carries them. Each constructor
    stands for one exception the Python code raises. */
module XrayErrors {

  datatype Error =
    | UnknownTableType(tableType: string)    // KeyError: no data version for this table type
    | MissingDataFile(message: string)       // OSError: the versioned table file is not on disk
    | MissingDataset(name: string)           // KeyError: the table file lacks a dataset
    | MissingAttribute(name: string)         // AttributeError: the integrator never loaded it
    | EnergyBounds(lower: real, upper: real) // EnergyBoundsException with the table's edges
    | EmptyBand                              // IndexError: the clipped width slice is empty
    | EmptyGrid(name: string)                // IndexError: a temperature or density grid is empty

  datatype Option<T> = None | Some(value: T)

  datatype Result<T> = Ok(value: T) | Err(error: Error) {
    predicate IsFailure() { Err? }

    function PropagateFailure<U>(): Result<U>
      requires Err?
    {
      Err(error)
    }

    function Extract(): T
      requires Ok?
    {
      value
    }
  }
}
