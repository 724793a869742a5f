/** The operator vocabulary shared by label and field selectors. In Go an operator is a
    string constant; `Unrecognized` stands for every other string value of that type. */
module Selection {

  datatype Operator =
    | DoesNotExist   // "!"
    | Equals         // "="
    | DoubleEquals   // "=="
    | In             // "in"
    | NotEquals      // "!="
    | NotIn          // "notin"
    | Exists         // "exists"
    | GreaterThan    // "gt"
    | LessThan       // "lt"
    | Unrecognized(name: string)
}
