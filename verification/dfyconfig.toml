includes = ["**/*.dfy"]

[options]
warn-contradictory-assumptions = true
